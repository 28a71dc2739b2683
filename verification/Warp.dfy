/** Threads, warps and the SIMT stack as values. */
module WarpModel {
  import opened Common
  import opened Sequences

  datatype WarpState = Ready | Stalled | StalledAtBarrier | Completed

  /** A thread's architectural state; the block it belongs to identifies its barrier group. */
  datatype Thread = Thread(blockId: nat, registers: seq<int>, predicate_: bool)

  /** What pushed a stack entry: SSY (a reconvergence token) or a divergent BRANCH (a deferred path).
      The machine stores no such mark and never reads this one; only the proofs do. */
  datatype Kind = Token | Deferred

  datatype StackEntry = StackEntry(mask: set<nat>, targetPc: nat, reconvergencePc: nat, kind: Kind)

  /** `static_cast<size_t>(-1)`, the reconvergence PC outside every SSY region. */
  const NO_RECONVERGENCE: nat := WORD - 1

  /** A warp.  `arrivals` and `releases` count the BARRIERs it has executed and been released from;
      like the kind of a stack entry they are marks for the proofs that the machine never reads. */
  datatype WarpVal = WarpVal(
    id: nat, threads: seq<Thread>, state: WarpState, pc: nat, stallCycles: nat, priority: int, readySince: nat,
    mask: set<nat>, reconvergencePc: nat, stack: seq<StackEntry>,
    arrivals: nat, releases: nat)

  function Lanes(w: WarpVal): set<nat> { Below(|w.threads|) }

  /** The block a warp belongs to, read from its first thread. */
  function BlockOf(w: WarpVal): Option<nat> {
    if w.threads == [] then None else Some(w.threads[0].blockId)
  }

  /** A warp as the grid builders hand it over. */
  function FreshWarp(id: nat, threads: seq<Thread>, priority: int): WarpVal {
    WarpVal(id, threads, Ready, 0, 0, priority, 0, Below(|threads|), NO_RECONVERGENCE, [], 0, 0)
  }

  // Warp's state transitions

  function Stall(w: WarpVal, cycles: nat): WarpVal {
    if cycles > 0 then w.(stallCycles := cycles, state := Stalled) else w
  }

  function TickStall(w: WarpVal, cycle: nat): WarpVal {
    if w.state == Stalled && w.stallCycles > 0 then
      if w.stallCycles == 1 then w.(stallCycles := 0, state := Ready, readySince := cycle)
      else w.(stallCycles := w.stallCycles - 1)
    else w
  }

  function ArriveAtBarrier(w: WarpVal): WarpVal { w.(state := StalledAtBarrier, arrivals := w.arrivals + 1) }

  function ReleaseFromBarrier(w: WarpVal, cycle: nat): WarpVal {
    w.(state := Ready, readySince := cycle, releases := w.releases + 1)
  }

  function Push(w: WarpVal, e: StackEntry): WarpVal { w.(stack := w.stack + [e]) }

  function Top(w: WarpVal): StackEntry
    requires w.stack != []
  {
    w.stack[|w.stack| - 1]
  }

  /** Pop the stack and continue on the popped entry's lanes at `pc`. */
  function Resume(w: WarpVal, pc: nat): WarpVal
    requires w.stack != []
  {
    w.(stack := w.stack[..|w.stack| - 1], mask := Top(w).mask, reconvergencePc := Top(w).reconvergencePc, pc := pc)
  }
}
