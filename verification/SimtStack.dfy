/** Invariants of the SIMT stack that hold for every program, well formed or not. */
module SimtStack {
  import opened Isa
  import opened Sequences
  import opened WarpModel
  import opened MemoryModel
  import opened ExecutorModel

  /** What may run above an entry: part of a token's lanes, or none of a deferred path's. */
  ghost predicate Fits(e: StackEntry, mask: set<nat>) {
    if e.kind.Token? then mask <= e.mask else mask !! e.mask
  }

  /** Masks are non-empty sets of the warp's lanes, and each fits every entry below it. */
  ghost predicate Laminar(w: WarpVal) {
    && w.mask != {} && w.mask <= Lanes(w)
    && (forall i :: 0 <= i < |w.stack| ==> w.stack[i].mask != {} && w.stack[i].mask <= Lanes(w))
    && (forall i :: 0 <= i < |w.stack| ==> Fits(w.stack[i], w.mask))
    && (forall i, j :: 0 <= i < j < |w.stack| ==> Fits(w.stack[i], w.stack[j].mask))
  }

  /** The target of the innermost token of a stack, or the sentinel. */
  function Innermost(stack: seq<StackEntry>): nat {
    if stack == [] then NO_RECONVERGENCE
    else if stack[|stack| - 1].kind.Token? then stack[|stack| - 1].targetPc
    else Innermost(stack[..|stack| - 1])
  }

  /** The warp and every stack entry record the innermost token of the stack beneath them. */
  ghost predicate Chained(w: WarpVal) {
    && w.reconvergencePc == Innermost(w.stack)
    && forall i :: 0 <= i < |w.stack| ==> w.stack[i].reconvergencePc == Innermost(w.stack[..i])
  }

  /** Two warps agree on everything the SIMT stack machine reads and writes. */
  predicate SameCore(a: WarpVal, b: WarpVal) {
    a.threads == b.threads && a.pc == b.pc && a.mask == b.mask && a.reconvergencePc == b.reconvergencePc &&
      a.stack == b.stack
  }

  lemma FreshInvariants(id: nat, threads: seq<Thread>, priority: int)
    requires threads != []
    ensures Laminar(FreshWarp(id, threads, priority)) && Chained(FreshWarp(id, threads, priority))
  {
    assert 0 in Below(|threads|);
  }

  lemma ResumeInvariants(w: WarpVal, pc: nat)
    requires w.stack != []
    ensures Laminar(w) ==> Laminar(Resume(w, pc))
    ensures Chained(w) ==> Chained(Resume(w, pc))
  {
    var s := Resume(w, pc).stack;
    assert forall i :: 0 <= i < |s| ==> s[..i] == w.stack[..i];
  }

  lemma PushedPrefix(stack: seq<StackEntry>, e: StackEntry, i: nat)
    requires i <= |stack|
    ensures (stack + [e])[..i] == stack[..i]
  {
  }

  lemma PushedInnermost(stack: seq<StackEntry>, e: StackEntry)
    ensures Innermost(stack + [e]) == if e.kind.Token? then e.targetPc else Innermost(stack)
  {
    var s := stack + [e];
    assert s[|s| - 1] == e && s[..|s| - 1] == stack;
  }

  lemma PushChained(w: WarpVal, e: StackEntry, w': WarpVal)
    requires Chained(w) && e.reconvergencePc == w.reconvergencePc
    requires w'.stack == w.stack + [e] &&
             w'.reconvergencePc == (if e.kind.Token? then e.targetPc else w.reconvergencePc)
    ensures Chained(w')
  {
    hide Innermost;
    PushedInnermost(w.stack, e);
    forall i | 0 <= i < |w'.stack|
      ensures w'.stack[i].reconvergencePc == Innermost(w'.stack[..i])
    {
      PushedPrefix(w.stack, e, i);
      if i == |w.stack| { assert w.stack[..i] == w.stack; }
    }
  }

  lemma PushLaminar(w: WarpVal, e: StackEntry, w': WarpVal)
    requires Laminar(w) && e.mask != {} && e.mask <= w.mask && w'.stack == w.stack + [e]
    requires w'.mask != {} && w'.mask <= w.mask && Fits(e, w'.mask) && |w'.threads| == |w.threads|
    ensures Laminar(w')
  {
  }

  lemma BranchInvariants(inst: Instruction, w: WarpVal)
    requires Laminar(w) && Chained(w)
    ensures Laminar(Branch(inst, w).0) && Chained(Branch(inst, w).0)
  {
    hide Laminar, Chained;
    var taken, w' := TakenMask(w), Branch(inst, w).0;
    if taken != {} && taken != w.mask {
      var e := StackEntry(w.mask - taken, w.pc + 1, w.reconvergencePc, Deferred);
      assert taken <= w.mask;
      assert w.mask == taken + (w.mask - taken);
      PushChained(w, e, w');
      PushLaminar(w, e, w');
    } else {
      SameStack(w, w');
    }
  }

  lemma SetSyncInvariants(inst: Instruction, w: WarpVal)
    requires Laminar(w) && Chained(w)
    ensures Laminar(SetSync(inst, w)) && Chained(SetSync(inst, w))
  {
    hide Chained;
    PushChained(w, StackEntry(w.mask, BranchTarget(w.pc, inst.immediate), w.reconvergencePc, Token), SetSync(inst, w));
  }

  lemma SameStack(w: WarpVal, w': WarpVal)
    requires Laminar(w) && Chained(w)
    requires w'.mask == w.mask && w'.stack == w.stack && w'.reconvergencePc == w.reconvergencePc
    requires |w'.threads| == |w.threads|
    ensures Laminar(w') && Chained(w')
  {
  }

  predicate IsControl(op: Opcode) { op in {BRANCH, SSY, SYNC} }

  /** Instructions other than BRANCH, SSY and SYNC leave the mask and the stack alone. */
  lemma PlainInstruction(inst: Instruction, w: WarpVal, m: MemVal)
    requires !IsControl(inst.opcode) && Execute(inst, w, m).Ok?
    ensures var w' := Execute(inst, w, m).value.warp;
            && w'.mask == w.mask && w'.stack == w.stack && w'.reconvergencePc == w.reconvergencePc
            && |w'.threads| == |w.threads| && w'.pc == w.pc + 1
  {
    hide WarpLoad, WarpStore, WarpAtomicAdd, AluLanes, Scatter, LoadAddresses, WriteRequests;
  }

  /** Every instruction of every program keeps the masks laminar and the reconvergence PCs chained. */
  lemma ExecuteInvariants(inst: Instruction, w: WarpVal, m: MemVal)
    requires Laminar(w) && Chained(w) && Execute(inst, w, m).Ok?
    ensures Laminar(Execute(inst, w, m).value.warp) && Chained(Execute(inst, w, m).value.warp)
  {
    hide Laminar, Chained, Branch, SetSync, WarpLoad, WarpStore, WarpAtomicAdd, AluLanes, Scatter, LoadAddresses,
         WriteRequests;
    match inst.opcode {
      case BRANCH => BranchInvariants(inst, w);
      case SSY => SetSyncInvariants(inst, w);
      case SYNC => ResumeInvariants(w, if Top(w).targetPc == w.pc then w.pc + 1 else Top(w).targetPc);
      case _ =>
        PlainInstruction(inst, w, m);
        SameStack(w, Execute(inst, w, m).value.warp);
    }
  }

  lemma FinishInvariants(k: Code, w: WarpVal, status: Status, latency: nat)
    requires Laminar(w) && Chained(w)
    ensures Laminar(Finish(k, w, status, latency)) && Chained(Finish(k, w, status, latency))
  {
    if w.pc >= |k| && w.stack != [] {
      ResumeInvariants(w, Top(w).targetPc);
    }
  }

  /** The deferred masks of a stack, together. */
  ghost function DeferredLanes(stack: seq<StackEntry>): set<nat> {
    if stack == [] then {}
    else
      DeferredLanes(stack[..|stack| - 1]) +
      (if stack[|stack| - 1].kind.Deferred? then stack[|stack| - 1].mask else {})
  }

  function DeferredPaths(stack: seq<StackEntry>): nat {
    if stack == [] then 0
    else DeferredPaths(stack[..|stack| - 1]) + (if stack[|stack| - 1].kind.Deferred? then 1 else 0)
  }

  ghost predicate LaminarStack(stack: seq<StackEntry>) {
    && (forall i :: 0 <= i < |stack| ==> stack[i].mask != {})
    && (forall i, j :: 0 <= i < j < |stack| ==> Fits(stack[i], stack[j].mask))
  }

  lemma DeferredDisjoint(stack: seq<StackEntry>, mask: set<nat>, lanes: set<nat>)
    requires LaminarStack(stack)
    requires forall i :: 0 <= i < |stack| ==> Fits(stack[i], mask) && stack[i].mask <= lanes
    ensures DeferredLanes(stack) !! mask && DeferredLanes(stack) <= lanes
    ensures DeferredPaths(stack) <= |DeferredLanes(stack)|
  {
    if stack != [] {
      var init, last := stack[..|stack| - 1], stack[|stack| - 1];
      DeferredDisjoint(init, mask, lanes);
      if last.kind.Deferred? {
        DeferredDisjoint(init, last.mask, lanes);
        assert |DeferredLanes(init) + last.mask| == |DeferredLanes(init)| + |last.mask|;
      }
    }
  }

  /** A warp of n lanes never has more than n - 1 deferred paths stacked. */
  lemma DeferredBound(w: WarpVal)
    requires Laminar(w)
    ensures DeferredPaths(w.stack) < |w.threads|
  {
    DeferredDisjoint(w.stack, w.mask, Lanes(w));
    assert |DeferredLanes(w.stack) + w.mask| == |DeferredLanes(w.stack)| + |w.mask|;
    SubsetSize(DeferredLanes(w.stack) + w.mask, Lanes(w));
  }

  /** When a BARRIER succeeds every lane is active and no deferred path is stacked. */
  lemma BarrierConverged(inst: Instruction, w: WarpVal, m: MemVal)
    requires Laminar(w) && inst.opcode == BARRIER
    ensures Execute(inst, w, m).Ok? <==> w.mask == Lanes(w)
    ensures Execute(inst, w, m).Ok? ==> DeferredPaths(w.stack) == 0
  {
    SubsetSize(w.mask, Lanes(w));
    if w.mask == Lanes(w) {
      DeferredDisjoint(w.stack, w.mask, Lanes(w));
      assert DeferredLanes(w.stack) == {};
    }
  }
}
