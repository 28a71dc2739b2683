/** A structured region always reconverges: mask, stack and reconvergence PC come back, and only the lanes that
    entered have run. */
module Reconvergence {
  import opened Common
  import opened Isa
  import opened WarpModel
  import opened MemoryModel
  import opened ExecutorModel
  import opened SimtStack
  import opened Nesting
  import opened Structured
  import opened ScalarModel
  import opened Refinement
  import opened Progress
  import opened Termination

  datatype Lone = Lone(warp: WarpVal, mem: MemVal)

  /** One instruction of one warp, apart from scheduling. */
  function StepWarp(k: Code, c: Lone): Result<Lone> {
    if c.warp.pc >= |k| then Ok(c)
    else
      var o :- Execute(k[c.warp.pc], c.warp, c.mem);
      Ok(Lone(Finish(k, o.warp, o.status, o.latency), o.mem))
  }

  function RunWarp(k: Code, c: Lone, n: nat): Result<Lone>
    decreases n
  {
    if n == 0 then Ok(c)
    else
      var c' :- StepWarp(k, c);
      RunWarp(k, c', n - 1)
  }

  /** The warp runs above the token `(mask, t, r)` that was pushed on `below`. */
  ghost predicate Inside(w: WarpVal, below: seq<StackEntry>, mask: set<nat>, t: nat, r: nat) {
    && |below| < |w.stack| && w.stack[|below|] == StackEntry(mask, t, r, Token)
    && forall i :: 0 <= i < |below| ==> w.stack[i] == below[i]
  }

  /** The warp has just left the region through its SYNC. */
  ghost predicate Left(w: WarpVal, below: seq<StackEntry>, mask: set<nat>, t: nat, r: nat) {
    w.stack == below && w.mask == mask && w.reconvergencePc == r && w.pc == t + 1
  }

  lemma ResumeInside(w: WarpVal, below: seq<StackEntry>, mask: set<nat>, t: nat, r: nat)
    requires Inside(w, below, mask, t, r) && SyncTop(w, w.pc)
    ensures Sync(w).Ok?
    ensures Inside(Sync(w).value, below, mask, t, r) || Left(Sync(w).value, below, mask, t, r)
  {
    if |w.stack| == |below| + 1 {
      assert w.stack[..|below|] == below;
    }
  }

  /** The top of the stack is told apart correctly. */
  predicate SyncTop(w: WarpVal, pc: nat) {
    w.stack != [] && (Top(w).kind.Token? <==> Top(w).targetPc == pc)
  }

  lemma TokensInside(w: WarpVal, i: nat)
    requires i < |w.stack| && w.stack[i].kind.Token?
    ensures Tokens(w.stack) != []
  {
    TokenWithin(w.stack, i);
  }

  lemma TokenWithin(stack: seq<StackEntry>, i: nat)
    requires i < |stack| && stack[i].kind.Token?
    ensures Tokens(stack) != []
  {
    if i < |stack| - 1 {
      TokenWithin(stack[..|stack| - 1], i);
    }
  }

  /** One instruction inside the region stays inside or leaves. */
  lemma ExecuteInside(k: Code, w: WarpVal, m: MemVal, below: seq<StackEntry>, mask: set<nat>, t: nat, r: nat)
    requires Mirrors(k, w) && w.pc < |k| && GoodInstruction(k, w.pc)
    requires Inside(w, below, mask, t, r) && Execute(k[w.pc], w, m).Ok?
    ensures var w' := Execute(k[w.pc], w, m).value.warp;
            Inside(w', below, mask, t, r) || (Left(w', below, mask, t, r) && w.pc == t)
  {
    hide Mirrors, GoodInstruction, Branch;
    if k[w.pc].opcode == SYNC {
      SyncRecognises(k, w);
      ResumeInside(w, below, mask, t, r);
    } else if k[w.pc].opcode == BRANCH {
      BranchShape(k[w.pc], w);
    } else if k[w.pc].opcode != SSY {
      PlainInstruction(k[w.pc], w, m);
    }
  }

  lemma ActingWithin(k: Code, w: WarpVal, below: seq<StackEntry>, mask: set<nat>, t: nat, r: nat)
    requires Laminar(w) && w.pc < |k| && Inside(w, below, mask, t, r)
    ensures ActingMask(k, w) <= mask
  {
    assert Fits(w.stack[|below|], w.mask);
    if k[w.pc].opcode == SYNC && |w.stack| > |below| + 1 {
      assert Fits(w.stack[|below|], Top(w).mask);
    }
  }

  lemma ListWithin(mask: set<nat>, bound: set<nat>, i: nat, n: nat)
    requires mask <= bound
    ensures forall l :: l in LaneList(mask, i, n) ==> l in bound
    decreases n - i
  {
  }

  /** Outside every region there is nothing, or the outermost token, at the bottom of the stack. */
  predicate RootedBelow(below: seq<StackEntry>) { below == [] || below[0].kind.Token? }

  lemma FinishAfterLeaving(k: Code, x: WarpVal, status: Status, latency: nat, below: seq<StackEntry>, mask: set<nat>,
                           t: nat, r: nat)
    requires Mirrors(k, x) && Open(k, |k|) == [] && (Inside(x, below, mask, t, r) || Left(x, below, mask, t, r))
    requires RootedBelow(below)
    ensures var w' := Finish(k, x, status, latency); Inside(w', below, mask, t, r) || Left(w', below, mask, t, r)
  {
    hide Open, NestedStack;
    if Inside(x, below, mask, t, r) {
      TokensInside(x, |below|);
    } else if below != [] {
      TokensInside(x, 0);
    }
  }

  /** The region `(below, mask, t, r)` is running in `c`, or has just been left. */
  ghost predicate InsideOrLeft(w: WarpVal, below: seq<StackEntry>, mask: set<nat>, t: nat, r: nat) {
    Inside(w, below, mask, t, r) || Left(w, below, mask, t, r)
  }

  /** The lanes `lanes`, all of `mask`, take the scalar threads from `c` to `c'`. */
  ghost predicate LanesRan(k: Code, c: Lone, lanes: seq<nat>, mask: set<nat>, c': Lone) {
    && (forall l :: l in lanes ==> l in mask)
    && RunLanes(k, AsScalars(k, c.warp, c.mem.data), lanes) == Ok(AsScalars(k, c'.warp, c'.mem.data))
  }

  lemma LanesRanTrans(k: Code, c: Lone, a: seq<nat>, mask: set<nat>, c': Lone, b: seq<nat>, c'': Lone)
    requires LanesRan(k, c, a, mask, c') && LanesRan(k, c', b, mask, c'')
    ensures LanesRan(k, c, a + b, mask, c'')
  {
    hide RunLanes, AsScalars;
    RunSplit(k, AsScalars(k, c.warp, c.mem.data), a, b);
  }

  /** One instruction of one warp in a structured kernel. */
  lemma StepRefines(k: Code, c: Lone)
    requires WellStructured(k) && InStep(k, c.warp) && c.warp.pc < |k| && Execute(k[c.warp.pc], c.warp, c.mem).Ok?
    ensures var c' := StepWarp(k, c).value;
            && InStep(k, c'.warp)
            && RunLanes(k, AsScalars(k, c.warp, c.mem.data), Acting(k, c.warp)) ==
               Ok(AsScalars(k, c'.warp, c'.mem.data))
            && (WarpWork(k, c'.warp) < WarpWork(k, c.warp) ||
                (WarpWork(k, c'.warp) == WarpWork(k, c.warp) && |c'.warp.stack| < |c.warp.stack|))
  {
    hide WarpWork, AsScalars, RunLanes, Execute, Finish, InStep, Acting, GoodThroughout, ForwardAt;
    var o := Execute(k[c.warp.pc], c.warp, c.mem).value;
    SameThreadCount(k[c.warp.pc], c.warp, c.mem);
    IssueInStep(k, c.warp, c.mem, o.warp);
    IssueRefines(k, c.warp, c.mem, o.warp);
    IssueWork(k, c.warp, c.mem, o.warp);
  }

  lemma StepInside(k: Code, c: Lone, below: seq<StackEntry>, mask: set<nat>, t: nat, r: nat)
    requires WellStructured(k) && InStep(k, c.warp) && c.warp.pc < |k| && Execute(k[c.warp.pc], c.warp, c.mem).Ok?
    requires Inside(c.warp, below, mask, t, r) && RootedBelow(below)
    ensures InsideOrLeft(StepWarp(k, c).value.warp, below, mask, t, r)
    ensures forall l :: l in Acting(k, c.warp) ==> l in mask
  {
    hide Execute, Finish, ActingMask, Inside, Left, Laminar, Mirrors, Chained, Open, ForwardAt;
    var w := c.warp;
    var o := Execute(k[w.pc], w, c.mem).value;
    assert GoodInstruction(k, w.pc);
    ExecuteInside(k, w, c.mem, below, mask, t, r);
    IssueInStep(k, w, c.mem, o.warp);
    FinishAfterLeaving(k, o.warp, o.status, o.latency, below, mask, t, r);
    ActingWithin(k, w, below, mask, t, r);
    ListWithin(ActingMask(k, w), mask, 0, |w.threads|);
  }

  /** A region entered at an SSY: some number of steps later the warp stands just past the region's SYNC with mask,
      stack and reconvergence PC as before, the lanes of the mask having run the region as scalar threads and no
      other lane having moved; only a data error can prevent it. */
  lemma RegionReconverges(k: Code, c: Lone) returns (n: nat, lanes: seq<nat>)
    requires WellStructured(k) && InStep(k, c.warp) && c.warp.pc < |k| && k[c.warp.pc].opcode == SSY
    requires RootedBelow(c.warp.stack)
    ensures var w, t := c.warp, BranchTarget(c.warp.pc, k[c.warp.pc].immediate);
            var run := RunWarp(k, c, n);
            if run.Throw? then DataError(run.error)
            else
              && Left(run.value.warp, w.stack, w.mask, t, w.reconvergencePc)
              && LanesRan(k, c, lanes, w.mask, run.value)
  {
    hide WellStructured, InStep, Inside, Left, StepWarp, RootedBelow, LanesRan;
    var w := c.warp;
    var t := BranchTarget(w.pc, k[w.pc].immediate);
    AfterSetSync(k, c);
    var c' := StepWarp(k, c).value;
    var n', lanes' := InsideReconverges(k, c', w.stack, w.mask, t, w.reconvergencePc);
    n, lanes := n' + 1, Acting(k, w) + lanes';
    if RunWarp(k, c', n').Ok? {
      LanesRanTrans(k, c, Acting(k, w), w.mask, c', lanes', RunWarp(k, c', n').value);
    }
  }

  lemma AfterSetSync(k: Code, c: Lone)
    requires WellStructured(k) && InStep(k, c.warp) && c.warp.pc < |k| && k[c.warp.pc].opcode == SSY
    ensures StepWarp(k, c).Ok?
    ensures var c' := StepWarp(k, c).value;
            && InStep(k, c'.warp) && LanesRan(k, c, Acting(k, c.warp), c.warp.mask, c')
            && Inside(c'.warp, c.warp.stack, c.warp.mask, BranchTarget(c.warp.pc, k[c.warp.pc].immediate),
               c.warp.reconvergencePc)
  {
    hide InStep, AsScalars, RunLanes, WellStructured;
    RegionHasNoBarrier(k, c.warp.pc);
    StepRefines(k, c);
    ListWithin(ActingMask(k, c.warp), c.warp.mask, 0, |c.warp.threads|);
  }

  lemma InsideReconverges(k: Code, c: Lone, below: seq<StackEntry>, mask: set<nat>, t: nat, r: nat)
    returns (n: nat, lanes: seq<nat>)
    requires WellStructured(k) && InStep(k, c.warp) && Inside(c.warp, below, mask, t, r) && RootedBelow(below)
    ensures var run := RunWarp(k, c, n);
            if run.Throw? then DataError(run.error)
            else Left(run.value.warp, below, mask, t, r) && LanesRan(k, c, lanes, mask, run.value)
    decreases WarpWork(k, c.warp), |c.warp.stack|
  {
    hide WarpWork, AsScalars, RunLanes, Execute, Finish, Acting, Inside, Left, InStep, WellStructured, RootedBelow,
         DataError;
    var w := c.warp;
    InsideRunning(k, w, below, mask, t, r);
    if Execute(k[w.pc], w, c.mem).Throw? {
      InsideThrows(k, w, c.mem, below, mask, t, r);
      n, lanes := 1, [];
    } else {
      StepRefines(k, c);
      StepInside(k, c, below, mask, t, r);
      var c' := StepWarp(k, c).value;
      if Inside(c'.warp, below, mask, t, r) {
        var n', lanes' := InsideReconverges(k, c', below, mask, t, r);
        n, lanes := n' + 1, Acting(k, w) + lanes';
        if RunWarp(k, c', n').Ok? {
          LanesRanTrans(k, c, Acting(k, w), mask, c', lanes', RunWarp(k, c', n').value);
        }
      } else {
        n, lanes := 1, Acting(k, w);
        assert RunWarp(k, c', 0) == Ok(c');
      }
    }
  }

  lemma SameThreadCount(inst: Instruction, w: WarpVal, m: MemVal)
    requires Execute(inst, w, m).Ok?
    ensures |Execute(inst, w, m).value.warp.threads| == |w.threads|
  {
  }

  lemma InsideRunning(k: Code, w: WarpVal, below: seq<StackEntry>, mask: set<nat>, t: nat, r: nat)
    requires InStep(k, w) && Inside(w, below, mask, t, r)
    ensures w.pc < |k|
  {
  }

  lemma InsideThrows(k: Code, w: WarpVal, m: MemVal, below: seq<StackEntry>, mask: set<nat>, t: nat, r: nat)
    requires WellStructured(k) && InStep(k, w) && w.pc < |k| && Inside(w, below, mask, t, r)
    requires Execute(k[w.pc], w, m).Throw?
    ensures DataError(Execute(k[w.pc], w, m).error)
  {
    assert GoodInstruction(k, w.pc) && ForwardAt(k, w.pc);
    TokensInside(w, |below|);
    hide Open, Tokens, NestedStack, Laminar, Chained, WellStructured;
    if k[w.pc].opcode == SYNC {
      SyncMirrors(k, w);
    } else if k[w.pc].opcode !in {BRANCH, SSY, BARRIER} {
      DataThrows(k[w.pc], w, m);
    }
  }

  // ---------------------------------------------------------------------------------------------
  // The guarded block SSY; CMP; BRANCH; body; SYNC with an empty body

  /** The four instructions of a guarded block without a body, at `p`. */
  predicate EmptyGuard(k: Code, p: nat) {
    && p + 4 < |k|
    && k[p].opcode == SSY && k[p].immediate == 3
    && k[p + 1].opcode == CMP
    && k[p + 2].opcode == BRANCH && k[p + 2].immediate == 1
    && k[p + 3].opcode == SYNC
  }

  /** All active lanes agree on the comparison. */
  predicate Agree(ts: seq<Thread>, mask: set<nat>) {
    forall a, b :: a in mask && b in mask && a < |ts| && b < |ts| ==> ts[a].predicate_ == ts[b].predicate_
  }

  lemma AluKeepsCount(inst: Instruction, w: WarpVal, m: MemVal)
    requires inst.opcode == CMP && Execute(inst, w, m).Ok?
    ensures var o := Execute(inst, w, m).value;
            && o.warp == w.(threads := o.warp.threads, pc := w.pc + 1) && |o.warp.threads| == |w.threads|
            && o.mem == m && o.latency == 1
  {
  }

  /** The warp after the guard's SSY and CMP, with threads `ts`. */
  function GuardEntered(w: WarpVal, ts: seq<Thread>): WarpVal {
    w.(threads := ts, pc := w.pc + 2, reconvergencePc := w.pc + 3,
       stack := w.stack + [StackEntry(w.mask, w.pc + 3, w.reconvergencePc, Token)])
  }

  lemma GuardStart(k: Code, c: Lone)
    requires EmptyGuard(k, c.warp.pc) && RunWarp(k, c, 2).Ok?
    ensures var c2 := RunWarp(k, c, 2).value;
            && c2.mem == c.mem && |c2.warp.threads| == |c.warp.threads|
            && c2.warp == GuardEntered(c.warp, c2.warp.threads)
  {
    hide Execute;
    var w1 := SetSync(k[c.warp.pc], c.warp);
    SsyStep(k, c);
    TwoSteps(k, c, Lone(w1, c.mem));
    CmpStep(k, Lone(w1, c.mem));
  }

  lemma SsyStep(k: Code, c: Lone)
    requires c.warp.pc + 1 < |k| && k[c.warp.pc].opcode == SSY
    ensures StepWarp(k, c) == Ok(Lone(SetSync(k[c.warp.pc], c.warp), c.mem))
  {
  }

  lemma CmpStep(k: Code, c: Lone)
    requires c.warp.pc + 1 < |k| && k[c.warp.pc].opcode == CMP && StepWarp(k, c).Ok?
    ensures var c' := StepWarp(k, c).value;
            && c'.mem == c.mem && |c'.warp.threads| == |c.warp.threads|
            && c'.warp == c.warp.(threads := c'.warp.threads, pc := c.warp.pc + 1)
  {
    hide Execute;
    AluKeepsCount(k[c.warp.pc], c.warp, c.mem);
  }

  lemma BranchStep(k: Code, c: Lone)
    requires c.warp.pc < |k| && k[c.warp.pc].opcode == BRANCH && Branch(k[c.warp.pc], c.warp).0.pc < |k|
    ensures StepWarp(k, c) == Ok(Lone(Branch(k[c.warp.pc], c.warp).0, c.mem))
  {
    hide Branch;
  }

  lemma SyncStep(k: Code, c: Lone)
    requires c.warp.pc < |k| && k[c.warp.pc].opcode == SYNC && Sync(c.warp).Ok? && Sync(c.warp).value.pc < |k|
    ensures StepWarp(k, c) == Ok(Lone(Sync(c.warp).value, c.mem))
  {
    hide Sync;
  }

  lemma TwoSteps(k: Code, c0: Lone, c1: Lone)
    requires StepWarp(k, c0) == Ok(c1)
    ensures RunWarp(k, c0, 2) == StepWarp(k, c1)
  {
    hide StepWarp;
    if StepWarp(k, c1).Ok? {
      assert RunWarp(k, StepWarp(k, c1).value, 0) == StepWarp(k, c1);
    }
    assert RunWarp(k, c1, 1) == StepWarp(k, c1);
    assert RunWarp(k, c0, 2) == RunWarp(k, c1, 1);
  }

  lemma FourSteps(k: Code, c: Lone)
    requires RunWarp(k, c, 2).Ok?
    ensures RunWarp(k, c, 4) == RunWarp(k, RunWarp(k, c, 2).value, 2)
  {
    hide StepWarp;
    var c1 := StepWarp(k, c).value;
    assert RunWarp(k, c, 2) == RunWarp(k, c1, 1);
    var c2 := StepWarp(k, c1).value;
    assert RunWarp(k, c2, 0) == Ok(c2);
    assert RunWarp(k, c1, 3) == RunWarp(k, c2, 2);
  }

  /** The thread has both registers the comparison reads. */
  predicate Comparable(inst: Instruction, t: Thread) {
    0 <= inst.src1 < |t.registers| && 0 <= inst.src2 < |t.registers|
  }

  /** The comparison comes out true. */
  predicate ComesOut(inst: Instruction, t: Thread) {
    Comparable(inst, t) && t.registers[inst.src1] == t.registers[inst.src2]
  }

  /** The comparison comes out the same on all active lanes. */
  predicate Unanimous(inst: Instruction, ts: seq<Thread>, mask: set<nat>) {
    forall a, b :: a in mask && b in mask && a < |ts| && b < |ts| ==> (ComesOut(inst, ts[a]) <==> ComesOut(inst, ts[b]))
  }

  lemma ComparedLanes(inst: Instruction, ts: seq<Thread>, mask: set<nat>, i: nat)
    requires inst.opcode == CMP && i <= |ts| && forall l :: l in mask && l < |ts| ==> Comparable(inst, ts[l])
    ensures AluLanes(inst, ts, mask, i).Ok?
    ensures var r := AluLanes(inst, ts, mask, i).value;
            forall l :: 0 <= l < |ts| ==>
              r[l] == if i <= l && l in mask then ts[l].(predicate_ := ComesOut(inst, ts[l]))
                      else ts[l]
    decreases |ts| - i
  {
    if i < |ts| {
      ComparedLanes(inst, if i in mask then ts[i := AluThread(inst, ts[i]).value] else ts, mask, i + 1);
    }
  }

  lemma GuardCompared(k: Code, c: Lone)
    requires EmptyGuard(k, c.warp.pc) && c.warp.mask <= Lanes(c.warp)
    requires forall l :: l in c.warp.mask && l < |c.warp.threads| ==> Comparable(k[c.warp.pc + 1], c.warp.threads[l])
    ensures RunWarp(k, c, 2).Ok?
    ensures var w := c.warp;
            var ts := RunWarp(k, c, 2).value.warp.threads;
            |ts| == |w.threads| && (Agree(ts, w.mask) <==> Unanimous(k[w.pc + 1], w.threads, w.mask))
  {
    hide Execute;
    var w, inst := c.warp, k[c.warp.pc + 1];
    var w1 := SetSync(k[w.pc], w);
    SsyStep(k, c);
    TwoSteps(k, c, Lone(w1, c.mem));
    ComparedLanes(inst, w.threads, w.mask, 0);
    CmpRuns(k, Lone(w1, c.mem));
    GuardStart(k, c);
  }

  lemma CmpRuns(k: Code, c: Lone)
    requires c.warp.pc + 1 < |k| && k[c.warp.pc].opcode == CMP
    requires AluLanes(k[c.warp.pc], c.warp.threads, c.warp.mask, 0).Ok?
    ensures StepWarp(k, c).Ok?
    ensures StepWarp(k, c).value.warp.threads == AluLanes(k[c.warp.pc], c.warp.threads, c.warp.mask, 0).value
  {
    hide AluLanes;
  }

  /** An empty guarded block, entered with comparable registers, restores mask and stack exactly when the comparison
      comes out the same on all active lanes: a deferred path that starts at the SYNC is taken for the token. */
  lemma EmptyGuardRestoresIffUniform(k: Code, c: Lone)
    requires Laminar(c.warp) && EmptyGuard(k, c.warp.pc)
    requires forall l :: l in c.warp.mask && l < |c.warp.threads| ==> Comparable(k[c.warp.pc + 1], c.warp.threads[l])
    ensures var w := c.warp;
            var r := RunWarp(k, c, 4);
            && r.Ok? && r.value.warp.pc == w.pc + 4
            && (r.value.warp.mask == w.mask && r.value.warp.stack == w.stack <==>
                Unanimous(k[w.pc + 1], w.threads, w.mask))
  {
    hide RunWarp, StepWarp, TakenMask, Agree, Unanimous, Branch, Sync;
    var w := c.warp;
    GuardCompared(k, c);
    var c2 := RunWarp(k, c, 2).value;
    GuardStart(k, c);
    FourSteps(k, c);
    GuardSync(k[w.pc + 2], w, c2.warp);
    GuardTaken(c2.warp, w.mask);
    BranchStep(k, c2);
    TwoSteps(k, c2, Lone(Branch(k[w.pc + 2], c2.warp).0, c2.mem));
    SyncStep(k, Lone(Branch(k[w.pc + 2], c2.warp).0, c2.mem));
  }

  /** The BRANCH and the SYNC of an empty guard whose token lies on top. */
  lemma GuardSync(inst: Instruction, w: WarpVal, w2: WarpVal)
    requires inst.immediate == 1 && w.pc + 3 < WORD && w2.pc == w.pc + 2 && w2.mask == w.mask
    requires w2.stack == w.stack + [StackEntry(w.mask, w.pc + 3, w.reconvergencePc, Token)]
    ensures var w3 := Branch(inst, w2).0;
            && w3.pc == w.pc + 3 && w3.stack != [] && Top(w3).targetPc == w3.pc && Sync(w3).Ok? &&
               Sync(w3).value.pc == w.pc + 4
            && (Sync(w3).value.mask == w.mask && Sync(w3).value.stack == w.stack <==>
                TakenMask(w2) == {} || TakenMask(w2) == w.mask)
  {
    hide TakenMask;
    var taken := TakenMask(w2);
    var w3 := Branch(inst, w2).0;
    if taken != {} && taken != w.mask {
      assert w3.stack[..|w3.stack| - 1] == w2.stack && |w2.stack| > |w.stack|;
    } else {
      assert w2.stack[..|w.stack|] == w.stack;
    }
  }

  lemma GuardTaken(w: WarpVal, mask: set<nat>)
    requires w.mask == mask && mask != {} && mask <= Lanes(w)
    ensures Agree(w.threads, mask) <==> (TakenMask(w) == {} || TakenMask(w) == mask)
  {
    var taken := TakenMask(w);
    forall l | l in mask
      ensures l < |w.threads| && (l in taken <==> w.threads[l].predicate_)
    {
    }
    var some :| some in mask;
    if Agree(w.threads, mask) {
      if w.threads[some].predicate_ { assert taken == mask; } else { assert taken == {}; }
    }
  }
}
