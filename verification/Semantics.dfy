/** What every instruction does to registers, predicates and memory, told lane by lane and word by word. */
module Semantics {
  import opened Common
  import opened Isa
  import opened WarpModel
  import opened MemoryModel
  import opened ExecutorModel
  import opened WarpMemory
  import opened ScalarModel
  import opened Refinement
  import Cyclic

  predicate Has(t: Thread, r: int) { 0 <= r < |t.registers| }

  function Reg(t: Thread, r: int): int { if Has(t, r) then t.registers[r] else 0 }

  /** Nothing of the thread changes except register `r`. */
  ghost predicate Keeps(t: Thread, t': Thread, r: int) {
    && t'.blockId == t.blockId && t'.predicate_ == t.predicate_ && |t'.registers| == |t.registers|
    && forall q :: 0 <= q < |t.registers| && q != r ==> t'.registers[q] == t.registers[q]
  }

  /** `a`, added `b` times or taken away -`b` times. */
  function Times(a: int, b: int): int
    decreases if b < 0 then -b else b
  {
    if b == 0 then 0 else if b > 0 then Times(a, b - 1) + a else Times(a, b + 1) - a
  }

  lemma {:induction false} TimesIsProduct(a: int, b: int)
    ensures Times(a, b) == a * b
    decreases if b < 0 then -b else b
  {
    if b > 0 {
      TimesIsProduct(a, b - 1);
    } else if b < 0 {
      TimesIsProduct(a, b + 1);
    }
  }

  // ---------------------------------------------------------------------------------------------
  // Arithmetic

  /** What an arithmetic instruction makes of one thread. */
  ghost predicate Computes(inst: Instruction, t: Thread, t': Thread) {
    match inst.opcode
    case ADD => Keeps(t, t', inst.dst) && Reg(t', inst.dst) - Reg(t, inst.src2) == Reg(t, inst.src1)
    case SUB => Keeps(t, t', inst.dst) && Reg(t', inst.dst) + Reg(t, inst.src2) == Reg(t, inst.src1)
    case MUL => Keeps(t, t', inst.dst) && Reg(t', inst.dst) == Times(Reg(t, inst.src1), Reg(t, inst.src2))
    case MOV =>
      Keeps(t, t', inst.dst) && Reg(t', inst.dst) == (if inst.src1 == -1 then inst.immediate else Reg(t, inst.src1))
    case CMP =>
      && t'.blockId == t.blockId && t'.registers == t.registers
      && (t'.predicate_ <==> Reg(t, inst.src1) == Reg(t, inst.src2))
    case _ => t' == t
  }

  /** The thread has the registers an arithmetic instruction names. */
  predicate Equipped(inst: Instruction, t: Thread) {
    && (inst.opcode != CMP ==> Has(t, inst.dst))
    && (inst.opcode == MOV ==> inst.src1 == -1 || Has(t, inst.src1))
    && (inst.opcode != MOV ==> Has(t, inst.src1) && Has(t, inst.src2))
  }

  lemma ThreadComputes(inst: Instruction, t: Thread)
    requires IsAlu(inst.opcode)
    ensures AluThread(inst, t).Ok? <==> Equipped(inst, t)
    ensures AluThread(inst, t).Ok? ==> Computes(inst, t, AluThread(inst, t).value)
    ensures AluThread(inst, t).Throw? ==> AluThread(inst, t).error == OutOfRange
  {
    TimesIsProduct(Reg(t, inst.src1), Reg(t, inst.src2));
  }

  lemma {:induction false} LanesCompute(inst: Instruction, ts: seq<Thread>, mask: set<nat>, i: nat)
    requires IsAlu(inst.opcode) && i <= |ts|
    ensures var r := AluLanes(inst, ts, mask, i);
            && (r.Ok? <==> forall l :: i <= l < |ts| && l in mask ==> Equipped(inst, ts[l]))
            && (r.Throw? ==> r.error == OutOfRange)
            && (r.Ok? ==> forall l :: 0 <= l < |ts| ==>
                  if l >= i && l in mask then Computes(inst, ts[l], r.value[l]) else r.value[l] == ts[l])
    decreases |ts| - i
  {
    hide AluThread, Computes, Equipped;
    if i < |ts| {
      if i !in mask {
        LanesCompute(inst, ts, mask, i + 1);
      } else {
        ThreadComputes(inst, ts[i]);
        if AluThread(inst, ts[i]).Ok? { LanesCompute(inst, ts[i := AluThread(inst, ts[i]).value], mask, i + 1); }
      }
    }
  }

  /** An arithmetic instruction on a whole warp: it throws exactly when an active lane lacks a register it names, and
      otherwise every active lane gets its result, every other register and every other lane stays, memory is untouched
      and one cycle passes. */
  lemma ArithmeticMeans(inst: Instruction, w: WarpVal, m: MemVal)
    requires IsAlu(inst.opcode)
    ensures var r := Execute(inst, w, m);
            && (r.Ok? <==> forall l :: 0 <= l < |w.threads| && l in w.mask ==> Equipped(inst, w.threads[l]))
            && (r.Throw? ==> r.error == OutOfRange)
            && (r.Ok? ==>
                  && r.value == Outcome(w.(threads := r.value.warp.threads, pc := w.pc + 1), m, Done, 1)
                  && |r.value.warp.threads| == |w.threads|
                  && forall l :: 0 <= l < |w.threads| ==>
                       if l in w.mask then Computes(inst, w.threads[l], r.value.warp.threads[l])
                       else r.value.warp.threads[l] == w.threads[l])
  {
    hide AluLanes, Computes, Equipped;
    LanesCompute(inst, w.threads, w.mask, 0);
  }

  /** SUB, in registers. */
  lemma SubSubtracts(inst: Instruction, w: WarpVal, m: MemVal, l: nat)
    requires inst.opcode == SUB && Execute(inst, w, m).Ok? && l < |w.threads| && l in w.mask
    ensures |Execute(inst, w, m).value.warp.threads| == |w.threads|
    ensures var t, t' := w.threads[l], Execute(inst, w, m).value.warp.threads[l];
            && Has(t, inst.dst) && Has(t, inst.src1) && Has(t, inst.src2) && Keeps(t, t', inst.dst)
            && t'.registers[inst.dst] + t.registers[inst.src2] == t.registers[inst.src1]
  {
    hide Execute;
    ArithmeticMeans(inst, w, m);
    assert Equipped(inst, w.threads[l]);
  }

  /** MUL by the laws of a product: of two warps, nothing times anything is nothing, and one more in the second factor
      of a lane adds the first factor to its result. */
  lemma MulMultiplies(inst: Instruction, w: WarpVal, v: WarpVal, m: MemVal, l: nat)
    requires inst.opcode == MUL && Execute(inst, w, m).Ok? && Execute(inst, v, m).Ok?
    requires l < |w.threads| && l in w.mask && l < |v.threads| && l in v.mask
    ensures |Execute(inst, w, m).value.warp.threads| == |w.threads|
    ensures |Execute(inst, v, m).value.warp.threads| == |v.threads|
    ensures var t, t' := w.threads[l], Execute(inst, w, m).value.warp.threads[l];
            var u, u' := v.threads[l], Execute(inst, v, m).value.warp.threads[l];
            && Keeps(t, t', inst.dst)
            && (Reg(t, inst.src2) == 0 ==> Reg(t', inst.dst) == 0)
            && (Reg(u, inst.src1) == Reg(t, inst.src1) && Reg(u, inst.src2) == Reg(t, inst.src2) + 1 ==>
                  Reg(u', inst.dst) == Reg(t', inst.dst) + Reg(t, inst.src1))
  {
    hide Execute;
    ArithmeticMeans(inst, w, m);
    ArithmeticMeans(inst, v, m);
    var t, u := w.threads[l], v.threads[l];
    TimesStep(Reg(t, inst.src1), Reg(t, inst.src2));
  }

  lemma TimesStep(a: int, b: int)
    ensures Times(a, b + 1) == Times(a, b) + a
  {
  }

  // ---------------------------------------------------------------------------------------------
  // Addresses and branch targets

  /** `a` is the 64-bit sum of a base register, if one is named, and the immediate. */
  predicate Addresses(t: Thread, base: int, immediate: int, a: nat) {
    a < WORD && (a - (if base == -1 then 0 else Reg(t, base)) - immediate) % WORD == 0
  }

  /** There is exactly one such word, the address the machine uses. */
  lemma OneAddress(t: Thread, base: int, immediate: int)
    requires Address(t, base, immediate).Ok?
    ensures forall a: nat :: Addresses(t, base, immediate, a) <==> a == Address(t, base, immediate).value
    ensures base == -1 || Has(t, base)
  {
    var sum := (if base == -1 then 0 else Reg(t, base)) + immediate;
    forall a: nat
      ensures Addresses(t, base, immediate, a) <==> a == Wrap(sum)
    {
      Congruent(a, sum);
    }
  }

  lemma Congruent(a: nat, sum: int)
    ensures a < WORD && (a - sum) % WORD == 0 <==> a == Wrap(sum)
  {
    var q, r := sum / WORD, sum % WORD;
    assert sum == WORD * q + r;
    if a < WORD && (a - sum) % WORD == 0 {
      var p := (a - sum) / WORD;
      assert a - sum == WORD * p;
      assert WORD * (q + p) == WORD * q + WORD * p;
      Cyclic.DivisionUnique(WORD, 0, a, q + p, r);
    } else if a == r {
      assert a - sum == WORD * (-q);
      Multiple(-q);
    }
  }

  lemma Multiple(q: int)
    ensures (WORD * q) % WORD == 0
  {
    var x := WORD * q;
    Cyclic.DivisionUnique(WORD, x / WORD, x % WORD, q, 0);
  }

  // ---------------------------------------------------------------------------------------------
  // Memory

  /** What a LOAD makes of one thread. */
  ghost predicate Loads(inst: Instruction, d: Data, t: Thread, t': Thread) {
    && Has(t, inst.dst) && Keeps(t, t', inst.dst)
    && forall a: nat :: Addresses(t, inst.src1, inst.immediate, a) ==> InRange(d, a) && Reg(t', inst.dst) == At(d, a)
  }

  lemma ThreadLoads(inst: Instruction, t: Thread, d: Data)
    requires inst.opcode == LOAD && ScalarExecute(inst, t, d).Ok?
    ensures var (t', d') := ScalarExecute(inst, t, d).value; d' == d && Loads(inst, d, t, t')
  {
    OneAddress(t, inst.src1, inst.immediate);
    hide Addresses, WORD;
  }

  lemma {:induction false} LanesLoad(inst: Instruction, ts: seq<Thread>, d: Data, mask: set<nat>, i: nat)
    requires inst.opcode == LOAD && i <= |ts| && Fold(inst, ts, d, mask, i).Ok?
    ensures var (ts', d') := Fold(inst, ts, d, mask, i).value;
            && d' == d && |ts'| == |ts|
            && forall l :: 0 <= l < |ts| ==> if l >= i &&
               l in mask then Loads(inst, d, ts[l], ts'[l]) else ts'[l] == ts[l]
    decreases |ts| - i
  {
    hide ScalarExecute, Loads;
    if i < |ts| {
      if i !in mask {
        LanesLoad(inst, ts, d, mask, i + 1);
      } else {
        ThreadLoads(inst, ts[i], d);
        LanesLoad(inst, ts[i := ScalarExecute(inst, ts[i], d).value.0], d, mask, i + 1);
      }
    }
  }

  /** LOAD on a whole warp: every active lane's destination receives the word at its own address, whatever the caches
      hold; nothing else changes. */
  lemma LoadMeans(k: Code, w: WarpVal, m: MemVal)
    requires w.pc < |k| && k[w.pc].opcode == LOAD && Execute(k[w.pc], w, m).Ok?
    ensures var o := Execute(k[w.pc], w, m).value;
            && o.mem.data == m.data && |o.warp.threads| == |w.threads| && o.status == Done
            && o.warp == w.(threads := o.warp.threads, pc := w.pc + 1)
            && forall l :: 0 <= l < |w.threads| ==>
                 if l in w.mask then Loads(k[w.pc], m.data, w.threads[l], o.warp.threads[l])
                 else o.warp.threads[l] == w.threads[l]
  {
    ExecuteIsFold(k, w, m);
    LanesLoad(k[w.pc], w.threads, m.data, w.mask, 0);
    hide Fold, Loads, WarpLoad, Scatter, LoadAddresses;
  }

  /** Lane `l` is an active lane that sends its value to the word at `a`. */
  predicate SendsTo(inst: Instruction, ts: seq<Thread>, mask: set<nat>, a: nat, l: nat) {
    l < |ts| && l in mask && Addresses(ts[l], inst.src2, inst.immediate, a)
  }

  /** The last active lane from `i` on that sends to `a`. */
  ghost predicate LastSender(inst: Instruction, ts: seq<Thread>, mask: set<nat>, a: nat, i: nat, l: nat) {
    i <= l && SendsTo(inst, ts, mask, a, l) && forall j: nat :: j > l ==> !SendsTo(inst, ts, mask, a, j)
  }

  lemma ThreadSends(inst: Instruction, t: Thread, d: Data, a: nat)
    requires inst.opcode in {STORE, ATOMIC_ADD} && ScalarExecute(inst, t, d).Ok?
    ensures var (t', d') := ScalarExecute(inst, t, d).value;
            && t' == t && Has(t, inst.src1) && SameRange(d, d')
            && At(d', a) == (if !Addresses(t, inst.src2, inst.immediate, a) then At(d, a)
                             else if inst.opcode == STORE then Reg(t, inst.src1) else At(d, a) + Reg(t, inst.src1))
  {
    OneAddress(t, inst.src2, inst.immediate);
    var x := WriteRequest(inst, t).value;
    hide Addresses;
    if inst.opcode == STORE {
      StoreOne(d, x.address, x.value, a);
    } else {
      StoreOne(d, x.address, At(d, x.address) + x.value, a);
    }
  }

  lemma {:induction false} LanesStore(inst: Instruction, ts: seq<Thread>, d: Data, mask: set<nat>, i: nat, a: nat)
    requires inst.opcode == STORE && i <= |ts| && Fold(inst, ts, d, mask, i).Ok?
    ensures var (ts', d') := Fold(inst, ts, d, mask, i).value;
            && ts' == ts && SameRange(d, d')
            && (forall l: nat :: LastSender(inst, ts, mask, a, i, l) ==> At(d', a) == Reg(ts[l], inst.src1))
            && ((forall l: nat :: l >= i ==> !SendsTo(inst, ts, mask, a, l)) ==> At(d', a) == At(d, a))
    decreases |ts| - i
  {
    hide ScalarExecute, Addresses, At, Reg;
    if i < |ts| {
      if i !in mask {
        LanesStore(inst, ts, d, mask, i + 1, a);
      } else {
        ThreadSends(inst, ts[i], d, a);
        assert SendsTo(inst, ts, mask, a, i) <==> Addresses(ts[i], inst.src2, inst.immediate, a);
        assert ts[i := ts[i]] == ts;
        LanesStore(inst, ts, ScalarExecute(inst, ts[i], d).value.1, mask, i + 1, a);
      }
    }
  }

  /** STORE on a whole warp: every word holds the value of the last active lane that sends to it, or what it held. */
  lemma StoreMeans(k: Code, w: WarpVal, m: MemVal, a: nat)
    requires w.pc < |k| && k[w.pc].opcode == STORE && Execute(k[w.pc], w, m).Ok?
    ensures var o := Execute(k[w.pc], w, m).value;
            && o.warp == w.(pc := w.pc + 1) && o.status == Done && SameRange(m.data, o.mem.data)
            && (forall l: nat :: LastSender(k[w.pc], w.threads, w.mask, a, 0, l) ==>
                  At(o.mem.data, a) == Reg(w.threads[l], k[w.pc].src1))
            && ((forall l: nat :: !SendsTo(k[w.pc], w.threads, w.mask, a, l)) ==> At(o.mem.data, a) == At(m.data, a))
  {
    ExecuteIsFold(k, w, m);
    LanesStore(k[w.pc], w.threads, m.data, w.mask, 0, a);
    hide Fold, WarpStore, WriteRequests, SendsTo, At, Reg;
  }

  /** What the active lanes from `i` on add to the word at `a`. */
  function Added(inst: Instruction, ts: seq<Thread>, mask: set<nat>, a: nat, i: nat): int
    decreases |ts| - i
  {
    if i >= |ts| then 0
    else (if SendsTo(inst, ts, mask, a, i) then Reg(ts[i], inst.src1) else 0) + Added(inst, ts, mask, a, i + 1)
  }

  lemma {:induction false} LanesAdd(inst: Instruction, ts: seq<Thread>, d: Data, mask: set<nat>, i: nat, a: nat)
    requires inst.opcode == ATOMIC_ADD && i <= |ts| && Fold(inst, ts, d, mask, i).Ok?
    ensures var (ts', d') := Fold(inst, ts, d, mask, i).value;
            ts' == ts && SameRange(d, d') && At(d', a) == At(d, a) + Added(inst, ts, mask, a, i)
    decreases |ts| - i
  {
    hide ScalarExecute, Addresses, At, Reg;
    if i < |ts| {
      if i !in mask {
        LanesAdd(inst, ts, d, mask, i + 1, a);
      } else {
        ThreadSends(inst, ts[i], d, a);
        assert ts[i := ts[i]] == ts;
        LanesAdd(inst, ts, ScalarExecute(inst, ts[i], d).value.1, mask, i + 1, a);
      }
    }
  }

  /** ATOMIC_ADD on a whole warp: every word gains the sum of what the active lanes that address it send. */
  lemma AtomicMeans(k: Code, w: WarpVal, m: MemVal, a: nat)
    requires w.pc < |k| && k[w.pc].opcode == ATOMIC_ADD && Execute(k[w.pc], w, m).Ok?
    ensures var o := Execute(k[w.pc], w, m).value;
            && o.warp == w.(pc := w.pc + 1) && o.status == Done && SameRange(m.data, o.mem.data)
            && At(o.mem.data, a) == At(m.data, a) + Added(k[w.pc], w.threads, w.mask, a, 0)
  {
    ExecuteIsFold(k, w, m);
    LanesAdd(k[w.pc], w.threads, m.data, w.mask, 0, a);
    hide Fold, WarpAtomicAdd, WriteRequests, SendsTo, At, Reg;
  }

  // ---------------------------------------------------------------------------------------------
  // Branches

  /** `p` is the 64-bit sum of a program counter and an immediate. */
  predicate Lands(pc: nat, immediate: int, p: nat) { p < WORD && (p - pc - immediate) % WORD == 0 }

  /** BRANCH on a whole warp, by the predicates of its active lanes: none set, all set, or some. A divergent branch
      goes on with the lanes that have it set, and the others wait on top of the stack at the next instruction. */
  lemma BranchMeans(inst: Instruction, w: WarpVal, m: MemVal)
    requires inst.opcode == BRANCH && w.mask <= Lanes(w)
    ensures Execute(inst, w, m).Ok? && Execute(inst, w, m).value.mem == m && Execute(inst, w, m).value.latency == 1
    ensures var o := Execute(inst, w, m).value;
            && o.warp.threads == w.threads && o.warp.reconvergencePc == w.reconvergencePc
            && (if forall l :: l in w.mask ==> !Takes(w, l) then
                  o.status == Done && o.warp.pc == w.pc + 1 && o.warp.mask == w.mask && o.warp.stack == w.stack
                else
                  && o.status == BranchTaken && Lands(w.pc, inst.immediate, o.warp.pc)
                  && (forall l :: l in o.warp.mask <==> l in w.mask && Takes(w, l))
                  && if forall l :: l in w.mask ==> Takes(w, l) then o.warp.stack == w.stack
                     else
                       && |o.warp.stack| == |w.stack| + 1 && o.warp.stack[..|w.stack|] == w.stack
                       && Top(o.warp).targetPc == w.pc + 1 && Top(o.warp).reconvergencePc == w.reconvergencePc
                       && forall l :: l in Top(o.warp).mask <==> l in w.mask && !Takes(w, l))
  {
    Congruent(BranchTarget(w.pc, inst.immediate), w.pc + inst.immediate);
    forall l
      ensures l in TakenMask(w) <==> l in w.mask && Takes(w, l)
    {
    }
    if forall l :: l in w.mask ==> !Takes(w, l) {
      assert TakenMask(w) == {};
    } else if forall l :: l in w.mask ==> Takes(w, l) {
      assert TakenMask(w) == w.mask;
    }
  }

  predicate Takes(w: WarpVal, l: nat) { l < |w.threads| && w.threads[l].predicate_ }
}
