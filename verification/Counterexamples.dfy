/** Concrete kernels outside the checked class, each showing what goes wrong without one of its conditions. */
module Counterexamples {
  import opened Common
  import opened Isa
  import opened WarpModel
  import opened MemoryModel
  import opened ExecutorModel
  import opened SchedulingModel
  import opened Nesting
  import opened Reconvergence
  import opened SmModel
  import opened SmRefinement
  import opened Barriers

  function Plain(op: Opcode, immediate: int): Instruction { Instruction(op, 0, 0, 0, immediate) }

  /** A thread that takes, or does not take, the next branch. */
  function Flagged(taken: bool): Thread { Thread(0, [0, 0], taken) }

  function Pair(first: bool, second: bool): WarpVal { FreshWarp(0, [Flagged(first), Flagged(second)], 0) }

  lemma PairMask(first: bool, second: bool)
    ensures Pair(first, second).mask == {0, 1}
  {
  }

  // ---------------------------------------------------------------------------------------------
  // A SYNC that is not the one its SSY announced

  /** The SYNC at 1 pops the token meant for 2, takes it for a deferred path, and the SYNC at 2 finds nothing. */
  const WRONG_SYNC: seq<Instruction> := [Plain(SSY, 2), Plain(SYNC, 0), Plain(SYNC, 0)]

  lemma WrongSyncThrows(m: MemVal)
    ensures RunWarp(WRONG_SYNC, Lone(Pair(false, false), m), 3) == Throw(EmptyStack)
    ensures !WellNested(WRONG_SYNC)
  {
    var k: Code := WRONG_SYNC;
    var w0 := Pair(false, false);
    var w1 := StepWarp(k, Lone(w0, m)).value.warp;
    assert w1.pc == 1 && w1.stack == [StackEntry(w0.mask, 2, NO_RECONVERGENCE, Token)];
    var w2 := StepWarp(k, Lone(w1, m)).value.warp;
    assert w2.pc == 2 && w2.stack == [];
    assert StepWarp(k, Lone(w2, m)) == Throw(EmptyStack);
    assert RunWarp(k, Lone(w2, m), 1) == Throw(EmptyStack);
    assert RunWarp(k, Lone(w1, m), 2) == RunWarp(k, Lone(w2, m), 1);
    assert RunWarp(k, Lone(w0, m), 3) == RunWarp(k, Lone(w1, m), 2);
    assert Open(k, 1) == [2] by { assert Open(k, 0) == []; }
    assert !GoodInstruction(k, 1);
  }

  // ---------------------------------------------------------------------------------------------
  // A divergent BRANCH directly before its SYNC

  /** The deferred path starts at the SYNC, which takes it for the token; the token is popped at the end of the
      kernel, and its SYNC then finds an empty stack. */
  const EMPTY_BODY: seq<Instruction> := [Plain(SSY, 2), Plain(BRANCH, 1), Plain(SYNC, 0)]

  const BODY_TOKEN := StackEntry({0, 1}, 2, NO_RECONVERGENCE, Token)

  lemma EmptyBodySplit(m: MemVal, w1: WarpVal, w2: WarpVal)
    requires w1 == Pair(false, true).(pc := 1, stack := [BODY_TOKEN], reconvergencePc := 2, mask := {0, 1})
    requires w2 == w1.(pc := 2, mask := {1}, stack := [BODY_TOKEN, StackEntry({0}, 2, 2, Deferred)])
    ensures StepWarp(EMPTY_BODY, Lone(w1, m)) == Ok(Lone(w2, m))
  {
    assert 0 in w1.mask && 0 !in TakenMask(w1) && 1 in TakenMask(w1);
    assert TakenMask(w1) == {1};
    assert w1.mask - TakenMask(w1) == {0};
    assert [BODY_TOKEN] + [StackEntry({0}, 2, 2, Deferred)] == w2.stack;
    assert Branch(EMPTY_BODY[1], w1) == (w2, BranchTaken);
    assert Execute(EMPTY_BODY[1], w1, m) == Ok(Outcome(w2, m, BranchTaken, 1));
  }

  lemma EmptyBodySync(m: MemVal, w2: WarpVal, w3: WarpVal)
    requires w2 == Pair(false, true).(pc := 2, mask := {1}, reconvergencePc := 2,
                                      stack := [BODY_TOKEN, StackEntry({0}, 2, 2, Deferred)])
    requires w3 == w2.(mask := {0, 1}, reconvergencePc := NO_RECONVERGENCE, stack := [])
    ensures StepWarp(EMPTY_BODY, Lone(w2, m)) == Ok(Lone(w3, m))
    ensures StepWarp(EMPTY_BODY, Lone(w3, m)) == Throw(EmptyStack)
  {
    var synced := Sync(w2).value;
    assert synced == w2.(pc := 3, mask := {0}, stack := [BODY_TOKEN]);
    assert Finish(EMPTY_BODY, synced, Done, 1) == w3;
  }

  lemma EmptyBodyThrows(m: MemVal)
    ensures RunWarp(EMPTY_BODY, Lone(Pair(false, true), m), 4) == Throw(EmptyStack)
    ensures !WellNested(EMPTY_BODY)
  {
    hide WellNested;
    var k: Code := EMPTY_BODY;
    var w0 := Pair(false, true);
    PairMask(false, true);
    var w1 := w0.(pc := 1, stack := [BODY_TOKEN], reconvergencePc := 2, mask := {0, 1});
    var w2 := w1.(pc := 2, mask := {1}, stack := [BODY_TOKEN, StackEntry({0}, 2, 2, Deferred)]);
    var w3 := w2.(mask := {0, 1}, reconvergencePc := NO_RECONVERGENCE, stack := []);
    assert [] + [StackEntry(w0.mask, 2, NO_RECONVERGENCE, Token)] == [BODY_TOKEN];
    assert SetSync(k[0], w0) == w1;
    assert StepWarp(k, Lone(w0, m)) == Ok(Lone(w1, m));
    EmptyBodySplit(m, w1, w2);
    EmptyBodySync(m, w2, w3);
    ThreeStepsThenThrow(k, Lone(w0, m), Lone(w1, m), Lone(w2, m), Lone(w3, m));
    EmptyBodyRejected();
  }

  lemma EmptyBodyRejected()
    ensures !WellNested(EMPTY_BODY)
  {
    var k: Code := EMPTY_BODY;
    assert Open(k, 1) == [2] by { assert Open(k, 0) == []; }
    assert !GoodInstruction(k, 1);
  }

  /** The kernel of the test of nested divergence: the inner SSY, at 4, targets the outer SYNC and not its own at 12. */
  const NESTED_TEST: seq<Instruction> := [
    Instruction(SSY, -1, -1, -1, 16), Instruction(MOV, 2, -1, -1, 0), Instruction(CMP, -1, 0, 2, 0),
    Instruction(BRANCH, -1, -1, -1, 12), Instruction(SSY, -1, -1, -1, 12), Instruction(MOV, 3, -1, -1, 1),
    Instruction(CMP, -1, 0, 3, 0), Instruction(BRANCH, -1, -1, -1, 4), Instruction(MOV, 1, -1, -1, 1),
    Instruction(CMP, -1, 0, 0, 0), Instruction(BRANCH, -1, -1, -1, 2), Instruction(MOV, 1, -1, -1, 2),
    Instruction(SYNC, 0, 0, 0, 0), Instruction(CMP, -1, 0, 0, 0), Instruction(BRANCH, -1, -1, -1, 2),
    Instruction(MOV, 1, -1, -1, 3), Instruction(SYNC, 0, 0, 0, 0)]

  lemma NestedTestRejected()
    ensures !WellNested(NESTED_TEST)
  {
    hide Open;
    var k: Code := NESTED_TEST;
    assert Open(k, 0) == [] by { NothingOpen(k); }
    OpenStep(k, 0);
    OpenAlong(k, 1, 4);
    OpenStep(k, 4);
    OpenAlong(k, 5, 12);
    assert !GoodInstruction(k, 12);
  }

  lemma NothingOpen(k: Code)
    ensures Open(k, 0) == []
  {
  }

  lemma {:induction false} OpenAlong(k: Code, a: nat, b: nat)
    requires a <= b <= |k| && forall p :: a <= p < b ==> k[p].opcode != SSY && k[p].opcode != SYNC
    ensures Open(k, b) == Open(k, a)
    decreases b
  {
    if a < b { OpenAlong(k, a, b - 1); }
  }

  lemma ThreeStepsThenThrow(k: Code, c0: Lone, c1: Lone, c2: Lone, c3: Lone)
    requires StepWarp(k, c0) == Ok(c1) && StepWarp(k, c1) == Ok(c2) && StepWarp(k, c2) == Ok(c3)
    requires StepWarp(k, c3) == Throw(EmptyStack)
    ensures RunWarp(k, c0, 4) == Throw(EmptyStack)
  {
    hide StepWarp;
    assert RunWarp(k, c3, 1) == Throw(EmptyStack);
    assert RunWarp(k, c2, 2) == RunWarp(k, c3, 1);
    assert RunWarp(k, c1, 3) == RunWarp(k, c2, 2);
  }

  // ---------------------------------------------------------------------------------------------
  // Unequal numbers of BARRIERs

  /** Two warps of block 0; the second skips the BARRIER and finishes after the first has started to wait. */
  const SKIPPED_BARRIER: seq<Instruction> := [Plain(BRANCH, 2), Plain(BARRIER, 0)]

  function Single(id: nat, taken: bool): WarpVal { FreshWarp(id, [Flagged(taken)], 0) }

  const TWO_WARPS := SmVal([Single(0, false), Single(1, true)], [], NOTHING, 0, Greedy)

  lemma SingleMask(id: nat, taken: bool)
    ensures Single(id, taken).mask == {0}
  {
  }

  lemma NotTaken(w: WarpVal)
    requires w.mask == {0} && w.threads == [Flagged(false)]
    ensures TakenMask(w) == {}
  {
  }

  lemma Taken(w: WarpVal)
    requires w.mask == {0} && w.threads == [Flagged(true)]
    ensures TakenMask(w) == w.mask
  {
    assert 0 in TakenMask(w);
    assert TakenMask(w) == {0};
  }

  /** After three ticks the first warp waits for ever and the second has completed; no error is ever reported. */
  lemma SilentDeadlock(m: MemVal, n: nat)
    ensures Ticks(SKIPPED_BARRIER, TWO_WARPS, m, 3).Ok?
    ensures var t := Ticks(SKIPPED_BARRIER, TWO_WARPS, m, 3).value;
            && Stuck(t.sm.warps)
            && Ticks(SKIPPED_BARRIER, t.sm, t.mem, n).Ok?
            && !IsCompleted(Ticks(SKIPPED_BARRIER, t.sm, t.mem, n).value.sm.warps)
  {
    var k: Code := SKIPPED_BARRIER;
    var a, b := Single(0, false), Single(1, true);
    var a1 := a.(pc := 1);
    var a2 := a.(pc := 2, state := StalledAtBarrier, arrivals := 1);
    var b1 := b.(pc := 2, state := Completed);
    FirstTick(m, a, b, a1);
    SecondTick(m, a1, b, a2);
    ThirdTick(m, a2, b, b1);
    assert Ticks(k, TWO_WARPS, m, 0) == Ok(Ticked(TWO_WARPS, m));
    var s1 := TWO_WARPS.(warps := [a1, b], cycles := 1);
    assert Ticks(k, TWO_WARPS, m, 1) == Ok(Ticked(s1, m));
    var s2 := TWO_WARPS.(warps := [a2, b], cycles := 2);
    assert Ticks(k, TWO_WARPS, m, 2) == Ok(Ticked(s2, m));
    var s3 := TWO_WARPS.(warps := [a2, b1], cycles := 3);
    assert Ticks(k, TWO_WARPS, m, 3) == Ok(Ticked(s3, m));
    assert s3.warps[0].state != Completed;
    StuckForever(k, s3, m, n);
  }

  lemma FirstTick(m: MemVal, a: WarpVal, b: WarpVal, a1: WarpVal)
    requires a == Single(0, false) && b == Single(1, true) && a1 == a.(pc := 1)
    ensures Tick(SKIPPED_BARRIER, SmVal([a, b], [], NOTHING, 0, Greedy), m) ==
            Ok(Ticked(SmVal([a1, b], [], NOTHING, 1, Greedy), m))
  {
    SingleMask(0, false);
    NotTaken(a);
    assert [a, b][0].state != Completed;
    assert TickStalls([a, b], 0) == [a, b];
    assert ScanFirst([a, b], 0) == Some(0);
    assert Execute(SKIPPED_BARRIER[0], a, m) == Ok(Outcome(a1, m, Done, 1));
    assert [a, b][0 := a1] == [a1, b];
    assert [a1, b][0 := Finish(SKIPPED_BARRIER, a1, Done, 1)] == [a1, b];
    assert Issue(SKIPPED_BARRIER, [a, b], 0, m, 1) == Ok(Issued([a1, b], m));
  }

  lemma SecondTick(m: MemVal, a1: WarpVal, b: WarpVal, a2: WarpVal)
    requires a1 == Single(0, false).(pc := 1) && b == Single(1, true)
    requires a2 == a1.(pc := 2, state := StalledAtBarrier, arrivals := 1)
    ensures Tick(SKIPPED_BARRIER, SmVal([a1, b], [], NOTHING, 1, Greedy), m) ==
            Ok(Ticked(SmVal([a2, b], [], NOTHING, 2, Greedy), m))
  {
    SingleMask(0, false);
    assert [a1, b][0].state != Completed;
    assert TickStalls([a1, b], 1) == [a1, b];
    assert ScanFirst([a1, b], 0) == Some(0);
    var moved := a1.(pc := 2);
    assert Execute(SKIPPED_BARRIER[1], a1, m) == Ok(Outcome(moved, m, BarrierReached, 1));
    assert [a1, b][0 := moved] == [moved, b];
    assert [moved, b][0 := a2] == [a2, b];
    assert Belongs([a2, b][1], 0) && [a2, b][1].state == Ready;
    assert !BlockWaiting([a2, b], 0);
    assert BarrierArrival([moved, b], 0, 2) == Ok([a2, b]);
    assert [a2, b][0 := a2] == [a2, b];
  }

  lemma ThirdTick(m: MemVal, a2: WarpVal, b: WarpVal, b1: WarpVal)
    requires a2 == Single(0, false).(pc := 2, state := StalledAtBarrier, arrivals := 1)
    requires b == Single(1, true) && b1 == b.(pc := 2, state := Completed)
    ensures Tick(SKIPPED_BARRIER, SmVal([a2, b], [], NOTHING, 2, Greedy), m) ==
            Ok(Ticked(SmVal([a2, b1], [], NOTHING, 3, Greedy), m))
  {
    SingleMask(1, true);
    Taken(b);
    assert [a2, b][0].state != Completed;
    assert TickStalls([a2, b], 2) == [a2, b];
    assert ScanFirst([a2, b], 1) == Some(1);
    assert ScanFirst([a2, b], 0) == Some(1);
    assert [a2, b][1 := b1] == [a2, b1];
    var moved := b.(pc := 2);
    assert [a2, b][1 := moved][1 := b1] == [a2, b1];
  }
}
