/** A static check of SSY/SYNC nesting, and the promise that a checked kernel keeps its SIMT stack in step with it. */
module Nesting {
  import opened Isa
  import opened WarpModel
  import opened MemoryModel
  import opened ExecutorModel
  import opened SimtStack

  /** The targets of the SSY regions open at `p`, outermost first, by one pass over the text. */
  function Open(k: Code, p: nat): seq<nat>
    requires p <= |k|
  {
    if p == 0 then []
    else
      var before := Open(k, p - 1);
      match k[p - 1].opcode
      case SSY => before + [BranchTarget(p - 1, k[p - 1].immediate)]
      case SYNC => if before == [] then [] else before[..|before| - 1]
      case _ => before
  }

  predicate GoodInstruction(k: Code, p: nat)
    requires p < |k|
  {
    var target := BranchTarget(p, k[p].immediate);
    match k[p].opcode
    case SSY => target < |k| && k[target].opcode == SYNC && Open(k, target) == Open(k, p) + [target]
    case SYNC => Open(k, p) != [] && Open(k, p)[|Open(k, p)| - 1] == p
    case BRANCH =>
      // the target is in the same regions, and the fall-through is an instruction other than SYNC
      && target <= |k| && Open(k, target) == Open(k, p)
      && p + 1 < |k| && k[p + 1].opcode != SYNC
    case _ => true
  }

  predicate GoodThroughout(k: Code) {
    forall p :: 0 <= p < |k| ==> GoodInstruction(k, p)
  }

  /** Regions nest, branches stay within their region, and every region closes. */
  predicate WellNested(k: Code) { GoodThroughout(k) && Open(k, |k|) == [] }

  /** The targets of the tokens on a stack, bottom first. */
  function Tokens(stack: seq<StackEntry>): seq<nat> {
    if stack == [] then []
    else
      var below := Tokens(stack[..|stack| - 1]);
      if stack[|stack| - 1].kind.Token? then below + [stack[|stack| - 1].targetPc] else below
  }

  /** An entry's target lies in the regions of the tokens up to it, and it targets a SYNC iff it is a token. */
  ghost predicate NestedEntry(k: Code, e: StackEntry, upTo: seq<StackEntry>) {
    && e.targetPc < |k|
    && Open(k, e.targetPc) == Tokens(upTo)
    && (e.kind.Token? <==> k[e.targetPc].opcode == SYNC)
  }

  ghost predicate NestedStack(k: Code, stack: seq<StackEntry>) {
    forall i :: 0 <= i < |stack| ==> NestedEntry(k, stack[i], stack[..i + 1])
  }

  /** The stack mirrors the regions open at the PC. */
  ghost predicate Mirrors(k: Code, w: WarpVal) {
    NestedStack(k, w.stack) && w.pc <= |k| && Open(k, w.pc) == Tokens(w.stack)
  }

  /** The invariant of a running warp; between ticks a warp past the end has nothing left to resume. */
  ghost predicate InStep(k: Code, w: WarpVal) {
    Laminar(w) && Chained(w) && Mirrors(k, w) && (w.pc == |k| ==> w.stack == [])
  }

  lemma OpenStep(k: Code, p: nat)
    requires p < |k|
    ensures k[p].opcode == SSY ==> Open(k, p + 1) == Open(k, p) + [BranchTarget(p, k[p].immediate)]
    ensures k[p].opcode == SYNC && Open(k, p) != [] ==> Open(k, p + 1) == Open(k, p)[..|Open(k, p)| - 1]
    ensures k[p].opcode != SSY && k[p].opcode != SYNC ==> Open(k, p + 1) == Open(k, p)
  {
  }

  lemma PushNested(k: Code, stack: seq<StackEntry>, e: StackEntry)
    requires NestedStack(k, stack) && NestedEntry(k, e, stack + [e])
    ensures NestedStack(k, stack + [e])
  {
    var s := stack + [e];
    forall i | 0 <= i < |s|
      ensures NestedEntry(k, s[i], s[..i + 1])
    {
      if i < |stack| {
        assert s[..i + 1] == stack[..i + 1];
      } else {
        assert s[..i + 1] == s;
      }
    }
  }

  lemma PopNested(k: Code, stack: seq<StackEntry>)
    requires NestedStack(k, stack) && stack != []
    ensures NestedStack(k, stack[..|stack| - 1])
    ensures NestedEntry(k, stack[|stack| - 1], stack)
  {
    var s := stack[..|stack| - 1];
    forall i | 0 <= i < |s|
      ensures NestedEntry(k, s[i], s[..i + 1])
    {
      assert s[..i + 1] == stack[..i + 1];
    }
    assert stack[..|stack|] == stack;
  }

  /** SYNC in a checked kernel never throws and always tells a token from a deferred path. */
  lemma SyncRecognises(k: Code, w: WarpVal)
    requires Mirrors(k, w) && w.pc < |k| && k[w.pc].opcode == SYNC && GoodInstruction(k, w.pc)
    ensures w.stack != []
    ensures Top(w).kind.Token? <==> Top(w).targetPc == w.pc
  {
    assert Tokens(w.stack) != [];
    PopNested(k, w.stack);
  }

  lemma SyncMirrors(k: Code, w: WarpVal)
    requires Mirrors(k, w) && w.pc < |k| && k[w.pc].opcode == SYNC && GoodInstruction(k, w.pc)
    ensures Sync(w).Ok? && Mirrors(k, Sync(w).value)
  {
    SyncRecognises(k, w);
    PopNested(k, w.stack);
    OpenStep(k, w.pc);
  }

  lemma BranchMirrors(k: Code, w: WarpVal)
    requires Mirrors(k, w) && w.pc < |k| && k[w.pc].opcode == BRANCH && GoodInstruction(k, w.pc)
    ensures Mirrors(k, Branch(k[w.pc], w).0)
  {
    var w' := Branch(k[w.pc], w).0;
    OpenStep(k, w.pc);
    if w'.stack != w.stack {
      var e := w'.stack[|w.stack|];
      assert (w.stack + [e])[..|w.stack|] == w.stack;
      PushNested(k, w.stack, e);
    }
  }

  lemma SetSyncMirrors(k: Code, w: WarpVal)
    requires Mirrors(k, w) && w.pc < |k| && k[w.pc].opcode == SSY && GoodInstruction(k, w.pc)
    ensures Mirrors(k, SetSync(k[w.pc], w))
  {
    var e := SetSync(k[w.pc], w).stack[|w.stack|];
    OpenStep(k, w.pc);
    assert (w.stack + [e])[..|w.stack|] == w.stack;
    PushNested(k, w.stack, e);
  }

  lemma ExecuteMirrors(k: Code, w: WarpVal, m: MemVal)
    requires Mirrors(k, w) && w.pc < |k| && GoodInstruction(k, w.pc)
    requires Execute(k[w.pc], w, m).Ok?
    ensures Mirrors(k, Execute(k[w.pc], w, m).value.warp)
  {
    hide Open, Tokens, NestedStack, Branch, SetSync, Sync, GoodInstruction;
    match k[w.pc].opcode
    case BRANCH => BranchMirrors(k, w);
    case SSY => SetSyncMirrors(k, w);
    case SYNC => SyncMirrors(k, w);
    case _ =>
      OpenStep(k, w.pc);
      PlainInstruction(k[w.pc], w, m);
  }

  /** Where no region is open the stack holds no token, and neither does what is left of it. */
  lemma NoneOpen(stack: seq<StackEntry>)
    requires Tokens(stack) == [] && stack != []
    ensures Tokens(stack[..|stack| - 1]) == [] && !stack[|stack| - 1].kind.Token?
  {
  }

  lemma FinishMirrors(k: Code, w: WarpVal, status: Status, latency: nat)
    requires Mirrors(k, w) && Open(k, |k|) == []
    ensures Mirrors(k, Finish(k, w, status, latency))
    ensures var w' := Finish(k, w, status, latency); w'.pc == |k| ==> w'.stack == []
  {
    hide Open, Tokens, NestedStack;
    if w.pc >= |k| && w.stack != [] {
      PopNested(k, w.stack);
      NoneOpen(w.stack);
    }
  }

  /** One issued instruction keeps a checked kernel's warp in step; `x` is the warp after any change of its
      scheduling state that a barrier arrival made. */
  lemma IssueInStep(k: Code, w: WarpVal, m: MemVal, x: WarpVal)
    requires WellNested(k) && InStep(k, w) && w.pc < |k|
    requires Execute(k[w.pc], w, m).Ok? && SameCore(x, Execute(k[w.pc], w, m).value.warp)
    ensures var o := Execute(k[w.pc], w, m).value;
            Mirrors(k, x) && InStep(k, Finish(k, x, o.status, o.latency))
  {
    var o := Execute(k[w.pc], w, m).value;
    assert GoodInstruction(k, w.pc);
    ExecuteInvariants(k[w.pc], w, m);
    ExecuteMirrors(k, w, m);
    FinishInvariants(k, x, o.status, o.latency);
    FinishMirrors(k, x, o.status, o.latency);
  }

  lemma FreshInStep(k: Code, id: nat, threads: seq<Thread>, priority: int)
    requires threads != []
    ensures InStep(k, FreshWarp(id, threads, priority))
  {
    FreshInvariants(id, threads, priority);
  }
}
