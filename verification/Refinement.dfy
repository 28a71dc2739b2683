/** SIMT execution refines scalar threads: what one PC, one mask and a stack do is an interleaving of lanes. */
module Refinement {
  import opened Common
  import opened Isa
  import opened WarpModel
  import opened MemoryModel
  import opened WarpMemory
  import opened ExecutorModel
  import opened SimtStack
  import opened Nesting
  import opened ScalarModel

  /** Where a lane that is not active waits: the target of the topmost entry that holds it, or the end. */
  function StackPc(end: nat, stack: seq<StackEntry>, l: nat): nat {
    if stack == [] then end
    else if l in stack[|stack| - 1].mask then stack[|stack| - 1].targetPc
    else StackPc(end, stack[..|stack| - 1], l)
  }

  /** The program counter lane `l` would have as a scalar thread. */
  function LanePc(k: Code, w: WarpVal, l: nat): nat {
    if l in w.mask then Min(w.pc, |k|) else StackPc(|k|, w.stack, l)
  }

  function LanePcs(k: Code, w: WarpVal): (pcs: seq<nat>)
    ensures |pcs| == |w.threads|
  {
    seq(|w.threads|, l requires 0 <= l < |w.threads| => LanePc(k, w, l))
  }

  /** A warp and the memory seen as scalar threads. */
  function AsScalars(k: Code, w: WarpVal, d: Data): Scalars { Scalars(LanePcs(k, w), w.threads, d) }

  /** The lanes that execute when a warp issues: all of a token's lanes at its SYNC, none when SYNC only
      switches to a deferred path, the active lanes otherwise. */
  function ActingMask(k: Code, w: WarpVal): set<nat>
    requires w.pc < |k|
  {
    if k[w.pc].opcode == SYNC && w.stack != [] then
      if Top(w).kind.Token? then Top(w).mask else {}
    else w.mask
  }

  function Acting(k: Code, w: WarpVal): seq<nat>
    requires w.pc < |k|
  {
    LaneList(ActingMask(k, w), 0, |w.threads|)
  }

  // ---------------------------------------------------------------------------------------------
  // Registers, predicates and memory: every warp instruction is a fold over its active lanes

  lemma {:induction false} AluFold(inst: Instruction, ts: seq<Thread>, d: Data, mask: set<nat>, i: nat)
    requires IsAlu(inst.opcode) && i <= |ts|
    ensures var r := AluLanes(inst, ts, mask, i);
            Fold(inst, ts, d, mask, i) == if r.Ok? then Ok((r.value, d)) else Throw(r.error)
    decreases |ts| - i
  {
    if i < |ts| {
      if i !in mask {
        AluFold(inst, ts, d, mask, i + 1);
      } else {
        var t := AluThread(inst, ts[i]);
        if t.Ok? {
          AluFold(inst, ts[i := t.value], d, mask, i + 1);
        }
      }
    }
  }

  lemma {:induction false} NoopFold(inst: Instruction, ts: seq<Thread>, d: Data, mask: set<nat>, i: nat)
    requires inst.opcode in {BRANCH, SSY, SYNC, BARRIER} && i <= |ts|
    ensures Fold(inst, ts, d, mask, i) == Ok((ts, d))
    decreases |ts| - i
  {
    if i < |ts| {
      NoopFold(inst, ts, d, mask, i + 1);
      assert ts[i := ts[i]] == ts;
    }
  }

  lemma LaterAddresses(inst: Instruction, ts: seq<Thread>, ts': seq<Thread>, mask: set<nat>, i: nat)
    requires |ts| == |ts'| && i <= |ts| && forall l :: i <= l < |ts| ==> ts[l] == ts'[l]
    ensures LoadAddresses(inst, ts, mask, i) == LoadAddresses(inst, ts', mask, i)
    decreases |ts| - i
  {
  }

  lemma {:induction false} LoadFold(inst: Instruction, ts: seq<Thread>, d: Data, mask: set<nat>, i: nat)
    requires inst.opcode == LOAD && i <= |ts|
    requires LoadAddresses(inst, ts, mask, i).Ok?
    requires LoadAll(d, LoadAddresses(inst, ts, mask, i).value).Ok?
    ensures var r := Scatter(inst.dst, ts, mask, LoadAll(d, LoadAddresses(inst, ts, mask, i).value).value, i);
            Fold(inst, ts, d, mask, i) == if r.Ok? then Ok((r.value, d)) else Throw(r.error)
    decreases |ts| - i
  {
    var addresses := LoadAddresses(inst, ts, mask, i).value;
    var values := LoadAll(d, addresses).value;
    if i < |ts| {
      if i !in mask {
        LoadFold(inst, ts, d, mask, i + 1);
        if values == [] {
          assert Scatter(inst.dst, ts, mask, values, i) == Scatter(inst.dst, ts, mask, values, i + 1);
        }
      } else {
        var rest := LoadAddresses(inst, ts, mask, i + 1).value;
        assert addresses[1..] == rest;
        assert values[1..] == LoadAll(d, rest).value;
        var t := WriteReg(ts[i], inst.dst, values[0]);
        if t.Ok? {
          LaterAddresses(inst, ts, ts[i := t.value], mask, i + 1);
          LoadFold(inst, ts[i := t.value], d, mask, i + 1);
        }
      }
    }
  }

  lemma {:induction false} StoreFold(inst: Instruction, ts: seq<Thread>, d: Data, mask: set<nat>, i: nat)
    requires inst.opcode == STORE && i <= |ts|
    requires WriteRequests(inst, ts, mask, i).Ok?
    ensures var r := StoreAll(d, WriteRequests(inst, ts, mask, i).value);
            Fold(inst, ts, d, mask, i) == if r.Ok? then Ok((ts, r.value)) else Throw(r.error)
    decreases |ts| - i
  {
    if i < |ts| {
      if i !in mask {
        StoreFold(inst, ts, d, mask, i + 1);
      } else {
        var rest := WriteRequests(inst, ts, mask, i + 1).value;
        var w := WriteRequest(inst, ts[i]).value;
        assert ([w] + rest)[1..] == rest;
        assert ts[i := ts[i]] == ts;
        var d' := StoreWord(d, w.address, w.value);
        if d'.Ok? {
          StoreFold(inst, ts, d'.value, mask, i + 1);
        }
      }
    }
  }

  lemma {:induction false} AddFold(inst: Instruction, ts: seq<Thread>, d: Data, mask: set<nat>, i: nat)
    requires inst.opcode == ATOMIC_ADD && i <= |ts|
    requires WriteRequests(inst, ts, mask, i).Ok?
    ensures var r := AddAll(d, WriteRequests(inst, ts, mask, i).value);
            Fold(inst, ts, d, mask, i) == if r.Ok? then Ok((ts, r.value)) else Throw(r.error)
    decreases |ts| - i
  {
    if i < |ts| {
      if i !in mask {
        AddFold(inst, ts, d, mask, i + 1);
      } else {
        var rest := WriteRequests(inst, ts, mask, i + 1).value;
        var w := WriteRequest(inst, ts[i]).value;
        assert ([w] + rest)[1..] == rest;
        assert ts[i := ts[i]] == ts;
        var d' := AddWord(d, w.address, w.value);
        if d'.Ok? {
          AddFold(inst, ts, d'.value, mask, i + 1);
        }
      }
    }
  }

  /** Whatever the caches hold, an instruction changes threads and memory as its acting lanes would, one by one. */
  lemma ExecuteIsFold(k: Code, w: WarpVal, m: MemVal)
    requires w.pc < |k| && Execute(k[w.pc], w, m).Ok?
    ensures var o := Execute(k[w.pc], w, m).value;
            && Fold(k[w.pc], w.threads, m.data, ActingMask(k, w), 0) == Ok((o.warp.threads, o.mem.data))
  {
    var inst := k[w.pc];
    match inst.opcode
    case LOAD =>
      var addresses := LoadAddresses(inst, w.threads, w.mask, 0).value;
      ServiceWarpKeepsData(m, addresses, false);
      LoadFold(inst, w.threads, m.data, w.mask, 0);
    case STORE => StoreFold(inst, w.threads, m.data, w.mask, 0);
    case ATOMIC_ADD => AddFold(inst, w.threads, m.data, w.mask, 0);
    case BRANCH | SSY | SYNC | BARRIER => NoopFold(inst, w.threads, m.data, ActingMask(k, w), 0);
    case _ => AluFold(inst, w.threads, m.data, w.mask, 0);
  }

  // ---------------------------------------------------------------------------------------------
  // Program counters

  lemma StackPcPush(end: nat, stack: seq<StackEntry>, e: StackEntry, l: nat)
    ensures StackPc(end, stack + [e], l) == if l in e.mask then e.targetPc else StackPc(end, stack, l)
  {
    assert (stack + [e])[..|stack|] == stack;
  }

  /** Lanes leaving a SYNC for a deferred path wait exactly where they are: at their region's token. */
  lemma WaitAtToken(end: nat, stack: seq<StackEntry>, l: nat, pc: nat)
    requires forall i :: 0 <= i < |stack| ==> (l in stack[i].mask <==> stack[i].kind.Token?)
    requires Tokens(stack) != [] && Tokens(stack)[|Tokens(stack)| - 1] == pc
    ensures StackPc(end, stack, l) == pc
  {
    if stack[|stack| - 1].kind.Deferred? {
      WaitAtToken(end, stack[..|stack| - 1], l, pc);
    }
  }

  /** Without tokens, lanes outside every entry have reached the end. */
  lemma FinishedLane(end: nat, stack: seq<StackEntry>, l: nat)
    requires forall i :: 0 <= i < |stack| ==> l !in stack[i].mask
    ensures StackPc(end, stack, l) == end
  {
  }

  lemma TokenlessStack(stack: seq<StackEntry>)
    requires Tokens(stack) == []
    ensures forall i :: 0 <= i < |stack| ==> stack[i].kind.Deferred?
  {
    if stack != [] {
      TokenlessStack(stack[..|stack| - 1]);
    }
  }

  lemma ResumeAtEnd(k: Code, x: WarpVal, l: nat)
    requires Laminar(x) && x.pc >= |k| && x.stack != [] && Top(x).targetPc < |k|
    requires forall i :: 0 <= i < |x.stack| ==> x.stack[i].kind.Deferred?
    ensures LanePc(k, Resume(x, Top(x).targetPc), l) == LanePc(k, x, l)
  {
    if l in x.mask {
      FinishedLane(|k|, x.stack[..|x.stack| - 1], l);
    }
  }

  /** Resuming a pending path at the end of the kernel moves no lane. */
  lemma FinishPcs(k: Code, x: WarpVal, status: Status, latency: nat, l: nat)
    requires Laminar(x) && Mirrors(k, x) && Open(k, |k|) == []
    ensures LanePc(k, Finish(k, x, status, latency), l) == LanePc(k, x, l)
  {
    hide Open, Tokens, NestedStack, Laminar, StackPc;
    if x.pc >= |k| && x.stack != [] {
      assert Tokens(x.stack) == [];
      TokenlessStack(x.stack);
      PopNested(k, x.stack);
      ResumeAtEnd(k, x, l);
    }
  }

  lemma SyncPcs(k: Code, w: WarpVal, l: nat)
    requires Laminar(w) && Mirrors(k, w) && w.pc < |k| && k[w.pc].opcode == SYNC && GoodInstruction(k, w.pc)
    ensures Sync(w).Ok?
    ensures LanePc(k, Sync(w).value, l) ==
            if l in ActingMask(k, w) then Min(w.pc + 1, |k|) else LanePc(k, w, l)
    ensures l in ActingMask(k, w) ==> LanePc(k, w, l) == w.pc
  {
    hide Open, GoodInstruction, Mirrors;
    SyncRecognises(k, w);
    TopWithin(k, w);
    if Top(w).kind.Deferred? && l in w.mask {
      DeferredWaits(k, w, l);
    }
  }

  lemma TopWithin(k: Code, w: WarpVal)
    requires Mirrors(k, w) && w.stack != []
    ensures Top(w).targetPc < |k|
  {
    assert NestedEntry(k, w.stack[|w.stack| - 1], w.stack[..|w.stack| - 1 + 1]);
  }

  /** A lane that waits behind a deferred path at its SYNC waits at that SYNC. */
  lemma DeferredWaits(k: Code, w: WarpVal, l: nat)
    requires Laminar(w) && Mirrors(k, w) && w.pc < |k| && k[w.pc].opcode == SYNC && GoodInstruction(k, w.pc)
    requires w.stack != [] && Top(w).kind.Deferred? && l in w.mask
    ensures StackPc(|k|, w.stack[..|w.stack| - 1], l) == w.pc
  {
    hide Open;
    PopNested(k, w.stack);
    var below := w.stack[..|w.stack| - 1];
    assert Tokens(below) == Tokens(w.stack);
    WaitAtToken(|k|, below, l, w.pc);
  }

  lemma BranchPcs(k: Code, w: WarpVal, l: nat)
    requires Laminar(w) && Mirrors(k, w) && w.pc < |k| && k[w.pc].opcode == BRANCH && GoodInstruction(k, w.pc)
    requires l < |w.threads|
    ensures LanePc(k, Branch(k[w.pc], w).0, l) ==
            if l in w.mask then NextPc(k, w.pc, w.threads[l]) else LanePc(k, w, l)
  {
    var w' := Branch(k[w.pc], w).0;
    if w'.stack != w.stack {
      StackPcPush(|k|, w.stack, w'.stack[|w.stack|], l);
    } else if l in w.mask && !w.threads[l].predicate_ {
      assert l !in TakenMask(w);
    } else if l in w.mask {
      assert l in TakenMask(w);
    }
  }

  /** Each acting lane stands at the warp's PC and moves as a scalar thread; every other lane stays. */
  lemma ExecutePcs(k: Code, w: WarpVal, m: MemVal, l: nat)
    requires Laminar(w) && Mirrors(k, w) && w.pc < |k| && GoodInstruction(k, w.pc)
    requires Execute(k[w.pc], w, m).Ok? && l < |w.threads|
    ensures LanePc(k, Execute(k[w.pc], w, m).value.warp, l) ==
            if l in ActingMask(k, w) then NextPc(k, w.pc, w.threads[l]) else LanePc(k, w, l)
    ensures l in ActingMask(k, w) ==> LanePc(k, w, l) == w.pc
  {
    match k[w.pc].opcode
    case SYNC => SyncPcs(k, w, l);
    case BRANCH => BranchPcs(k, w, l);
    case SSY =>
      StackPcPush(|k|, w.stack, StackEntry(w.mask, BranchTarget(w.pc, k[w.pc].immediate), w.reconvergencePc, Token), l);
    case _ =>
  }

  // ---------------------------------------------------------------------------------------------
  // The refinement

  /** One lane's program counter after an issue. */
  lemma IssuePc(k: Code, w: WarpVal, m: MemVal, x: WarpVal, l: nat)
    requires Laminar(w) && Mirrors(k, w) && w.pc < |k| && GoodInstruction(k, w.pc)
    requires Execute(k[w.pc], w, m).Ok? && SameCore(x, Execute(k[w.pc], w, m).value.warp)
    requires Laminar(x) && Mirrors(k, x) && Open(k, |k|) == [] && l < |w.threads|
    ensures var o := Execute(k[w.pc], w, m).value;
            LanePc(k, Finish(k, x, o.status, o.latency), l) ==
            if l in ActingMask(k, w) then NextPc(k, w.pc, w.threads[l]) else LanePc(k, w, l)
    ensures l in ActingMask(k, w) ==> LanePc(k, w, l) == w.pc
  {
    hide LanePc, Execute, Finish, NextPc, ActingMask, Open, Laminar, Mirrors, GoodInstruction;
    var o := Execute(k[w.pc], w, m).value;
    ExecutePcs(k, w, m, l);
    SameCoreLanePc(k, x, o.warp, l);
    FinishPcs(k, x, o.status, o.latency, l);
  }

  /** The program counters of all lanes after an issue. */
  lemma IssuePcs(k: Code, w: WarpVal, m: MemVal, x: WarpVal)
    requires WellNested(k) && InStep(k, w) && w.pc < |k|
    requires Execute(k[w.pc], w, m).Ok? && SameCore(x, Execute(k[w.pc], w, m).value.warp)
    requires |x.threads| == |w.threads|
    ensures var o := Execute(k[w.pc], w, m).value;
            LanePcs(k, Finish(k, x, o.status, o.latency)) ==
            Advanced(k, LanePcs(k, w), w.threads, ActingMask(k, w), w.pc, 0)
    ensures forall l :: 0 <= l < |w.threads| && l in ActingMask(k, w) ==> LanePcs(k, w)[l] == w.pc
  {
    hide LanePc, Execute, Finish, NextPc, ActingMask, Open, Laminar, Mirrors, GoodInstruction, Chained;
    var o := Execute(k[w.pc], w, m).value;
    assert GoodInstruction(k, w.pc);
    IssueInStep(k, w, m, x);
    ExecuteInvariants(k[w.pc], w, m);
    SameCoreLanePc(k, x, o.warp, 0);
    FinishThreads(k, x, o.status, o.latency);
    forall l | 0 <= l < |w.threads|
      ensures l in ActingMask(k, w) ==> LanePc(k, w, l) == w.pc
      ensures LanePc(k, Finish(k, x, o.status, o.latency), l) ==
              if l in ActingMask(k, w) then NextPc(k, w.pc, w.threads[l]) else LanePc(k, w, l)
    {
      IssuePc(k, w, m, x, l);
    }
  }

  lemma SameCoreLanePc(k: Code, a: WarpVal, b: WarpVal, l: nat)
    requires SameCore(a, b)
    ensures LanePc(k, a, l) == LanePc(k, b, l)
    ensures Laminar(a) <==> Laminar(b)
  {
  }

  lemma FinishThreads(k: Code, x: WarpVal, status: Status, latency: nat)
    ensures Finish(k, x, status, latency).threads == x.threads
  {
  }

  /** One issued instruction of a checked kernel is exactly its acting lanes' scalar steps, in lane order,
      on the same memory; if no lane acts, nothing changes but the path the warp runs. */
  lemma IssueRefines(k: Code, w: WarpVal, m: MemVal, x: WarpVal)
    requires WellNested(k) && InStep(k, w) && w.pc < |k|
    requires Execute(k[w.pc], w, m).Ok? && SameCore(x, Execute(k[w.pc], w, m).value.warp)
    ensures var o := Execute(k[w.pc], w, m).value;
            RunLanes(k, AsScalars(k, w, m.data), Acting(k, w)) ==
            Ok(AsScalars(k, Finish(k, x, o.status, o.latency), o.mem.data))
  {
    hide LanePcs, Execute, Finish, Fold, ActingMask, RunLanes, LaneList, Advanced, InStep, WellNested;
    var o := Execute(k[w.pc], w, m).value;
    ExecuteIsFold(k, w, m);
    FinishThreads(k, x, o.status, o.latency);
    assert |o.warp.threads| == |w.threads|;
    IssuePcs(k, w, m, x);
    RunFold(k, AsScalars(k, w, m.data), ActingMask(k, w), w.pc, 0);
  }
}
