/** Kernels whose branches run forward inside SSY regions and whose BARRIERs stand outside them. */
module Structured {
  import opened Isa
  import opened WarpModel
  import opened MemoryModel
  import opened ExecutorModel
  import opened SimtStack
  import opened Nesting

  predicate ForwardAt(k: Code, p: nat)
    requires p < |k|
  {
    match k[p].opcode
    case BRANCH => BranchTarget(p, k[p].immediate) > p && Open(k, p) != []
    case SSY => BranchTarget(p, k[p].immediate) > p
    case BARRIER => Open(k, p) == []
    case _ => true
  }

  /** The shape the kernel generators emit; every clause can be read off the text. */
  predicate WellStructured(k: Code) {
    WellNested(k) && forall p :: 0 <= p < |k| ==> ForwardAt(k, p)
  }

  /** How many BARRIERs precede `p`. */
  function BarriersBefore(k: Code, p: nat): nat
    requires p <= |k|
  {
    if p == 0 then 0 else BarriersBefore(k, p - 1) + (if k[p - 1].opcode == BARRIER then 1 else 0)
  }

  lemma BarriersMonotone(k: Code, p: nat, q: nat)
    requires p <= q <= |k|
    ensures BarriersBefore(k, p) <= BarriersBefore(k, q)
    decreases q - p
  {
    if p < q { BarriersMonotone(k, p, q - 1); }
  }

  /** A region left open past its SYNC stays open to the end. */
  lemma {:induction false} NeverCloses(k: Code, p: nat, t: nat)
    requires GoodThroughout(k) && p <= |k| && t in Open(k, p) && t < p
    ensures t in Open(k, |k|)
    decreases |k| - p
  {
    if p < |k| {
      assert GoodInstruction(k, p);
      OpenStep(k, p);
      var o := Open(k, p);
      if k[p].opcode == SYNC {
        assert o == o[..|o| - 1] + [p];
      }
      NeverCloses(k, p + 1, t);
    }
  }

  /** A region open at `p` closes at or after `p`. */
  lemma ClosesLater(k: Code, p: nat, t: nat)
    requires WellNested(k) && p <= |k| && t in Open(k, p)
    ensures p <= t
  {
    if t < p {
      NeverCloses(k, p, t);
    }
  }

  /** A region stays open up to its SYNC. */
  lemma StaysOpen(k: Code, p: nat, t: nat, q: nat)
    requires WellNested(k) && p <= q <= |k| && q <= t && t in Open(k, p)
    ensures t in Open(k, q)
    decreases q - p
  {
    if p < q {
      StaysOpen(k, p, t, q - 1);
      assert GoodInstruction(k, q - 1);
      OpenStep(k, q - 1);
      var o := Open(k, q - 1);
      if k[q - 1].opcode == SYNC {
        assert o == o[..|o| - 1] + [q - 1];
      }
    }
  }

  /** No BARRIER stands inside a region. */
  lemma NoBarrierInside(k: Code, p: nat, t: nat, q: nat)
    requires WellStructured(k) && p <= q <= |k| && q <= t && t in Open(k, p)
    ensures BarriersBefore(k, q) == BarriersBefore(k, p)
    decreases q - p
  {
    if p < q {
      NoBarrierInside(k, p, t, q - 1);
      StaysOpen(k, p, t, q - 1);
      assert ForwardAt(k, q - 1);
    }
  }

  lemma BranchCrossesNoBarrier(k: Code, p: nat)
    requires WellStructured(k) && p < |k| && k[p].opcode == BRANCH
    ensures var q := BranchTarget(p, k[p].immediate);
            p < q <= |k| && BarriersBefore(k, q) == BarriersBefore(k, p)
  {
    assert GoodInstruction(k, p) && ForwardAt(k, p);
    var q := BranchTarget(p, k[p].immediate);
    var t := Open(k, p)[0];
    assert t in Open(k, q);
    ClosesLater(k, q, t);
    NoBarrierInside(k, p, t, q);
  }

  lemma RegionHasNoBarrier(k: Code, p: nat)
    requires WellStructured(k) && p < |k| && k[p].opcode == SSY
    ensures var t := BranchTarget(p, k[p].immediate);
            p < t < |k| && BarriersBefore(k, t) == BarriersBefore(k, p)
  {
    assert GoodInstruction(k, p) && ForwardAt(k, p);
    var t := BranchTarget(p, k[p].immediate);
    OpenStep(k, p);
    assert Open(k, p + 1)[|Open(k, p)|] == t;
    NoBarrierInside(k, p + 1, t, t);
  }

  /** All lanes are active outside every region, and the outermost token holds them all. */
  ghost predicate Rooted(w: WarpVal) {
    if w.stack == [] then w.mask == Lanes(w) else w.stack[0].kind.Token? && w.stack[0].mask == Lanes(w)
  }

  lemma RootedTokens(stack: seq<StackEntry>)
    requires stack != [] && stack[0].kind.Token?
    ensures Tokens(stack) != []
  {
    if |stack| > 1 {
      RootedTokens(stack[..|stack| - 1]);
    }
  }

  /** A warp at a point outside every region has reconverged completely. */
  lemma ReconvergedOutside(k: Code, w: WarpVal)
    requires InStep(k, w) && Rooted(w) && Open(k, w.pc) == []
    ensures w.stack == [] && w.mask == Lanes(w)
  {
    if w.stack != [] {
      RootedTokens(w.stack);
    }
  }

  /** The warp and everything it has deferred stand behind the same BARRIERs, as many as it has arrived at. */
  ghost predicate Paced(k: Code, w: WarpVal) {
    && w.pc <= |k| && BarriersBefore(k, w.pc) == w.arrivals
    && forall i :: 0 <= i < |w.stack| ==>
         w.stack[i].targetPc <= |k| && BarriersBefore(k, w.stack[i].targetPc) == w.arrivals
  }

  lemma ResumeKeeps(k: Code, w: WarpVal, pc: nat)
    requires Rooted(w) && Paced(k, w) && w.stack != []
    requires pc <= |k| && BarriersBefore(k, pc) == w.arrivals
    ensures Rooted(Resume(w, pc)) && Paced(k, Resume(w, pc))
  {
  }

  /** What an instruction does to the pace: a BARRIER adds one, nothing else changes it. */
  ghost predicate PacedAfter(k: Code, w: WarpVal, arrivals: nat) { Paced(k, w.(arrivals := arrivals)) }

  lemma InsideRegion(k: Code, w: WarpVal)
    requires InStep(k, w) && Open(k, w.pc) != []
    ensures w.stack != []
  {
  }

  lemma BranchShape(inst: Instruction, w: WarpVal)
    ensures var w' := Branch(inst, w).0;
            && w'.threads == w.threads && w'.arrivals == w.arrivals
            && (w'.pc == w.pc + 1 || w'.pc == BranchTarget(w.pc, inst.immediate))
            && (w'.stack == w.stack ||
                (|w'.stack| == |w.stack| + 1 && (forall i :: 0 <= i < |w.stack| ==> w'.stack[i] == w.stack[i]) &&
                 w'.stack[|w.stack|].targetPc == w.pc + 1))
  {
    hide TakenMask;
  }

  lemma DivergedKeeps(k: Code, w: WarpVal, w': WarpVal)
    requires Rooted(w) && Paced(k, w) && w.stack != []
    requires |w'.threads| == |w.threads| && w'.arrivals == w.arrivals
    requires w'.pc <= |k| && BarriersBefore(k, w'.pc) == w.arrivals
    requires || w'.stack == w.stack
             || (|w'.stack| == |w.stack| + 1 && (forall i :: 0 <= i < |w.stack| ==> w'.stack[i] == w.stack[i]) &&
                 w'.stack[|w.stack|].targetPc <= |k| && BarriersBefore(k, w'.stack[|w.stack|].targetPc) == w.arrivals)
    ensures Rooted(w') && Paced(k, w')
  {
    hide BarriersBefore;
  }

  lemma BranchInside(k: Code, p: nat)
    requires WellStructured(k) && p < |k| && k[p].opcode == BRANCH
    ensures Open(k, p) != [] && BarriersBefore(k, p + 1) == BarriersBefore(k, p)
  {
    assert ForwardAt(k, p);
  }

  lemma BranchKeeps(k: Code, w: WarpVal)
    requires WellStructured(k) && InStep(k, w) && Rooted(w) && Paced(k, w)
    requires w.pc < |k| && k[w.pc].opcode == BRANCH
    ensures Rooted(Branch(k[w.pc], w).0) && Paced(k, Branch(k[w.pc], w).0)
  {
    hide WellStructured, InStep, BarriersBefore, Open, Branch, Rooted;
    BranchInside(k, w.pc);
    BranchCrossesNoBarrier(k, w.pc);
    InsideRegion(k, w);
    BranchShape(k[w.pc], w);
    DivergedKeeps(k, w, Branch(k[w.pc], w).0);
  }

  lemma SetSyncKeeps(k: Code, w: WarpVal)
    requires WellStructured(k) && Rooted(w) && Paced(k, w) && w.pc < |k| && k[w.pc].opcode == SSY
    ensures Rooted(SetSync(k[w.pc], w)) && Paced(k, SetSync(k[w.pc], w))
  {
    assert BarriersBefore(k, w.pc + 1) == BarriersBefore(k, w.pc);
    hide WellStructured, BarriersBefore;
    RegionHasNoBarrier(k, w.pc);
  }

  lemma SyncKeeps(k: Code, w: WarpVal)
    requires WellStructured(k) && InStep(k, w) && Rooted(w) && Paced(k, w)
    requires w.pc < |k| && k[w.pc].opcode == SYNC
    ensures Sync(w).Ok? && Rooted(Sync(w).value) && Paced(k, Sync(w).value)
  {
    assert GoodInstruction(k, w.pc) && BarriersBefore(k, w.pc + 1) == BarriersBefore(k, w.pc);
    assert Mirrors(k, w);
    hide WellStructured, InStep, BarriersBefore, GoodInstruction, Mirrors, Rooted;
    SyncRecognises(k, w);
    ResumeKeeps(k, w, if Top(w).targetPc == w.pc then w.pc + 1 else Top(w).targetPc);
  }

  /** A BARRIER of a structured kernel never finds the warp divergent. */
  lemma BarrierConverges(k: Code, w: WarpVal, m: MemVal)
    requires WellStructured(k) && InStep(k, w) && Rooted(w) && w.pc < |k| && k[w.pc].opcode == BARRIER
    ensures Execute(k[w.pc], w, m).Ok? && w.stack == []
  {
    assert ForwardAt(k, w.pc);
    ReconvergedOutside(k, w);
    BarrierConverged(k[w.pc], w, m);
  }

  lemma PlainStatus(inst: Instruction, w: WarpVal, m: MemVal)
    requires !IsControl(inst.opcode) && Execute(inst, w, m).Ok?
    ensures Execute(inst, w, m).value.status == BarrierReached <==> inst.opcode == BARRIER
  {
    hide WarpLoad, WarpStore, WarpAtomicAdd, AluLanes, Scatter, LoadAddresses, WriteRequests;
  }

  lemma SteppedKeeps(k: Code, w: WarpVal, w': WarpVal, arrivals: nat)
    requires Rooted(w) && Paced(k, w) && w.pc < |k|
    requires w'.mask == w.mask && w'.stack == w.stack && |w'.threads| == |w.threads| && w'.pc == w.pc + 1
    requires arrivals == BarriersBefore(k, w.pc + 1) && (arrivals == w.arrivals || w.stack == [])
    ensures Rooted(w') && PacedAfter(k, w', arrivals)
  {
    hide BarriersBefore;
  }

  lemma BarrierStep(k: Code, p: nat)
    requires p < |k|
    ensures BarriersBefore(k, p + 1) == BarriersBefore(k, p) + (if k[p].opcode == BARRIER then 1 else 0)
  {
  }

  lemma PlainKeeps(k: Code, w: WarpVal, m: MemVal)
    requires WellStructured(k) && InStep(k, w) && Rooted(w) && Paced(k, w) && w.pc < |k|
    requires !IsControl(k[w.pc].opcode) && Execute(k[w.pc], w, m).Ok?
    ensures var o := Execute(k[w.pc], w, m).value;
            && (o.status == BarrierReached <==> k[w.pc].opcode == BARRIER)
            && Rooted(o.warp) && PacedAfter(k, o.warp, w.arrivals + (if k[w.pc].opcode == BARRIER then 1 else 0))
  {
    hide WellStructured, InStep, BarriersBefore, Execute, Rooted, PacedAfter;
    BarrierStep(k, w.pc);
    PlainInstruction(k[w.pc], w, m);
    PlainStatus(k[w.pc], w, m);
    if k[w.pc].opcode == BARRIER {
      BarrierConverges(k, w, m);
    }
    SteppedKeeps(k, w, Execute(k[w.pc], w, m).value.warp, BarriersBefore(k, w.pc + 1));
  }

  /** Every instruction of a structured kernel keeps the pace; only a BARRIER advances it. */
  lemma ExecuteKeeps(k: Code, w: WarpVal, m: MemVal)
    requires WellStructured(k) && InStep(k, w) && Rooted(w) && Paced(k, w) && w.pc < |k|
    requires Execute(k[w.pc], w, m).Ok?
    ensures var o := Execute(k[w.pc], w, m).value;
            && (o.status == BarrierReached <==> k[w.pc].opcode == BARRIER)
            && Rooted(o.warp) && PacedAfter(k, o.warp, w.arrivals + (if k[w.pc].opcode == BARRIER then 1 else 0))
  {
    hide WellStructured, InStep, Rooted, Paced;
    match k[w.pc].opcode
    case BRANCH => BranchKeeps(k, w);
    case SSY => SetSyncKeeps(k, w);
    case SYNC => SyncKeeps(k, w);
    case _ => PlainKeeps(k, w, m);
  }
}
