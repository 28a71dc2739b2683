/** The warp object: the fields the simulator updates in place. */
module Warps {
  import opened Common
  import opened Sequences
  import opened WarpModel

  class Warp {
    const id: nat
    const priority: int
    var threads: seq<Thread>
    var state: WarpState
    var pc: nat
    var stallCycles: nat
    var readySince: nat
    var mask: set<nat>
    var reconvergencePc: nat
    var stack: seq<StackEntry>
    ghost var arrivals: nat
    ghost var releases: nat

    /** The warp as a value. */
    ghost function Abs(): WarpVal
      reads this
    {
      WarpVal(id, threads, state, pc, stallCycles, priority, readySince, mask, reconvergencePc, stack, arrivals,
        releases)
    }

    constructor (id: nat, priority: int)
      ensures Abs() == FreshWarp(id, [], priority)
    {
      this.id := id;
      this.priority := priority;
      threads := [];
      state := Ready;
      pc := 0;
      stallCycles := 0;
      readySince := 0;
      mask := {};
      reconvergencePc := NO_RECONVERGENCE;
      stack := [];
      arrivals := 0;
      releases := 0;
    }

    /** The copy an SM makes of a warp of the grid. */
    constructor Copy(w: WarpVal)
      ensures Abs() == w
    {
      id := w.id;
      priority := w.priority;
      threads := w.threads;
      state := w.state;
      pc := w.pc;
      stallCycles := w.stallCycles;
      readySince := w.readySince;
      mask := w.mask;
      reconvergencePc := w.reconvergencePc;
      stack := w.stack;
      arrivals := w.arrivals;
      releases := w.releases;
    }

    /** A warp under construction stays fresh, up to the 32 lanes its mask can hold. */
    method AddThread(t: Thread)
      modifies this
      ensures threads == old(threads) + [t]
      ensures mask == old(mask) + (if |old(threads)| < 32 then {|old(threads)|} else {})
      ensures Abs() == old(Abs()).(threads := threads, mask := mask)
      ensures old(Abs() == FreshWarp(id, threads, priority) && |threads| < 32) ==>
                Abs() == FreshWarp(id, threads, priority)
    {
      var lane := |threads|;
      if lane < 32 {
        mask := mask + {lane};
      }
      threads := threads + [t];
      assert Below(lane) + {lane} == Below(lane + 1);
    }

    /** The value a container copies; the marks for the proofs start afresh. */
    method Snapshot() returns (w: WarpVal)
      ensures w == Abs().(arrivals := 0, releases := 0)
    {
      w := WarpVal(id, threads, state, pc, stallCycles, priority, readySince, mask, reconvergencePc, stack, 0, 0);
    }

    method PushSimtStack(e: StackEntry)
      modifies this`stack
      ensures Abs() == Push(old(Abs()), e)
    {
      stack := stack + [e];
    }

    method PopSimtStack() returns (e: Option<StackEntry>)
      modifies this`stack
      ensures old(stack) == [] ==> e == None && stack == []
      ensures old(stack) != [] ==> e == Some(Top(old(Abs()))) && stack == old(stack)[..|old(stack)| - 1]
    {
      if stack == [] {
        return None;
      }
      e := Some(stack[|stack| - 1]);
      stack := stack[..|stack| - 1];
    }

    /** Continue on a popped entry's lanes: how SYNC and the end of the kernel both use the stack. */
    method SetPath(lanes: set<nat>, nextPc: nat, nextReconvergencePc: nat)
      modifies this`mask, this`pc, this`reconvergencePc
      ensures mask == lanes && pc == nextPc && reconvergencePc == nextReconvergencePc
    {
      mask := lanes;
      pc := nextPc;
      reconvergencePc := nextReconvergencePc;
    }

    method Stall(cycles: nat)
      modifies this`stallCycles, this`state
      ensures Abs() == WarpModel.Stall(old(Abs()), cycles)
    {
      if cycles > 0 {
        stallCycles := cycles;
        state := Stalled;
      }
    }

    method TickStall(cycle: nat)
      modifies this`stallCycles, this`state, this`readySince
      ensures Abs() == WarpModel.TickStall(old(Abs()), cycle)
    {
      if state == Stalled && stallCycles > 0 {
        stallCycles := stallCycles - 1;
        if stallCycles == 0 {
          state := Ready;
          readySince := cycle;
        }
      }
    }

    method SetCompleted()
      modifies this`state
      ensures state == Completed
    {
      state := Completed;
    }

    method SetStalledAtBarrier()
      modifies this`state, this`arrivals
      ensures Abs() == ArriveAtBarrier(old(Abs()))
    {
      state := StalledAtBarrier;
      arrivals := arrivals + 1;
    }

    method SetReady(cycle: nat)
      modifies this`state, this`readySince, this`releases
      ensures Abs() == if old(state) != Ready then ReleaseFromBarrier(old(Abs()), cycle) else old(Abs())
    {
      if state != Ready {
        state := Ready;
        readySince := cycle;
        releases := releases + 1;
      }
    }

    /** The block the warp belongs to. */
    function BlockId(): (b: Option<nat>)
      reads this
      ensures b == BlockOf(Abs())
    {
      if threads == [] then None else Some(threads[0].blockId)
    }
  }

  /** The warps as values. */
  ghost function Views(ws: seq<Warp>): (vs: seq<WarpVal>)
    reads ws
    ensures |vs| == |ws| && forall i :: 0 <= i < |ws| ==> vs[i] == ws[i].Abs()
  {
    seq(|ws|, i requires 0 <= i < |ws| reads ws => ws[i].Abs())
  }

  ghost predicate Distinct(ws: seq<Warp>) {
    forall i, j :: 0 <= i < j < |ws| ==> ws[i] != ws[j]
  }
}
