/** Structured kernels never deadlock, never throw over control flow, and always finish. */
module Progress {
  import opened Common
  import opened Isa
  import opened WarpModel
  import opened MemoryModel
  import opened ExecutorModel
  import opened SchedulingModel
  import opened SimtStack
  import opened Nesting
  import opened Structured
  import opened SmModel
  import opened SmRefinement
  import opened Barriers

  /** A good warp that keeps the pace of its kernel's BARRIERs. */
  ghost predicate PacedWarp(k: Code, w: WarpVal) { GoodWarp(k, w) && Rooted(w) && Paced(k, w) }

  ghost predicate PacedWarps(k: Code, warps: seq<WarpVal>) {
    forall i :: 0 <= i < |warps| ==> PacedWarp(k, warps[i])
  }

  /** Whoever waits at a barrier waits for some warp of its block. */
  ghost predicate SomeoneMissing(warps: seq<WarpVal>) {
    forall i :: 0 <= i < |warps| && warps[i].state == StalledAtBarrier ==> MissingFor(warps, i)
  }

  predicate MissingFor(warps: seq<WarpVal>, i: nat)
    requires i < |warps|
  {
    exists j :: 0 <= j < |warps| && SameBlock(warps[i], warps[j]) && warps[j].state != StalledAtBarrier
  }

  /** The invariant of an SM that runs a structured kernel. */
  ghost predicate Lively(k: Code, warps: seq<WarpVal>) {
    PacedWarps(k, warps) && Lockstep(warps) && SomeoneMissing(warps)
  }

  predicate Awake(w: WarpVal) { w.state == Ready || w.state == Stalled }

  lemma PaceBound(k: Code, w: WarpVal)
    requires PacedWarp(k, w)
    ensures w.arrivals <= BarriersBefore(k, |k|)
    ensures w.state == Completed ==> w.arrivals == BarriersBefore(k, |k|)
    ensures w.threads != []
  {
    BarriersMonotone(k, w.pc, |k|);
    assert w.threads == [] ==> Lanes(w) == {};
  }

  /** Deadlock freedom, block by block: while a warp is unfinished, some warp of its block is ready or counting down a
      stall. */
  lemma NeverDeadlocked(k: Code, warps: seq<WarpVal>, i: nat)
    requires Lively(k, warps) && i < |warps| && warps[i].state != Completed
    ensures exists j :: 0 <= j < |warps| && SameBlock(warps[i], warps[j]) && Awake(warps[j])
  {
    hide GoodWarp, Rooted, Paced;
    assert PacedWarp(k, warps[i]);
    PaceBound(k, warps[i]);
    if warps[i].state == StalledAtBarrier {
      assert MissingFor(warps, i);
      var j :| 0 <= j < |warps| && SameBlock(warps[i], warps[j]) && warps[j].state != StalledAtBarrier;
      assert PacedWarp(k, warps[j]) && Counted(warps[i]) && Counted(warps[j]);
      PaceBound(k, warps[j]);
      assert Awake(warps[j]);
    } else {
      assert SameBlock(warps[i], warps[i]) && Awake(warps[i]);
    }
  }

  // ---------------------------------------------------------------------------------------------
  // The invariant is kept

  lemma BelongsSame(w: WarpVal)
    requires w.threads != []
    ensures BlockOf(w) == Some(BarrierKey(w))
  {
  }

  /** At a BARRIER of a structured kernel no warp of the block has completed. */
  lemma NoneCompleted(k: Code, warps: seq<WarpVal>, i: nat, x: WarpVal)
    requires PacedWarps(k, warps) && Lockstep(warps) && i < |warps| && warps[i].state == Ready
    requires warps[i].pc < |k| && k[warps[i].pc].opcode == BARRIER
    requires BlockOf(x) == BlockOf(warps[i]) && x.state == StalledAtBarrier
    ensures !SomeCompleted(warps[i := x], BarrierKey(warps[i]))
  {
    var w := warps[i];
    assert PacedWarp(k, w) && Counted(w);
    PaceBound(k, w);
    BelongsSame(w);
    assert BarriersBefore(k, w.pc + 1) == w.arrivals + 1;
    BarriersMonotone(k, w.pc + 1, |k|);
    var after := warps[i := x];
    forall j | 0 <= j < |warps| && Belongs(after[j], BarrierKey(w))
      ensures after[j].state != Completed
    {
      if j != i {
        assert SameBlock(w, warps[j]);
        assert PacedWarp(k, warps[j]) && Counted(warps[j]);
        PaceBound(k, warps[j]);
      }
    }
  }

  /** A barrier arrival in a structured kernel succeeds, and leaves no block with nobody missing. */
  lemma ArrivalSucceeds(k: Code, warps: seq<WarpVal>, i: nat, executed: WarpVal, cycle: nat)
    requires PacedWarps(k, warps) && Lockstep(warps) && SomeoneMissing(warps) && i < |warps| && warps[i].state == Ready
    requires warps[i].pc < |k| && k[warps[i].pc].opcode == BARRIER
    requires executed.threads == warps[i].threads && executed.state == Ready
    ensures BarrierArrival(warps[i := executed], i, cycle).Ok?
    ensures SomeoneMissing(BarrierArrival(warps[i := executed], i, cycle).value)
  {
    var key := BarrierKey(warps[i]);
    var before := warps[i := executed];
    var arrived := warps[i := ArriveAtBarrier(executed)];
    assert before[i := ArriveAtBarrier(before[i])] == arrived;
    assert PacedWarp(k, warps[i]);
    PaceBound(k, warps[i]);
    NoneCompleted(k, warps, i, ArriveAtBarrier(executed));
    if BlockWaiting(arrived, key) {
      ReleasedMissing(warps, i, arrived, cycle);
    } else {
      WaitingMissing(warps, i, arrived);
    }
  }

  lemma WaitingMissing(warps: seq<WarpVal>, i: nat, arrived: seq<WarpVal>)
    requires SomeoneMissing(warps) && i < |warps| && warps[i].threads != []
    requires |arrived| == |warps| && BlockOf(arrived[i]) == BlockOf(warps[i])
    requires forall j :: 0 <= j < |warps| && j != i ==> arrived[j] == warps[j]
    requires !BlockWaiting(arrived, BarrierKey(warps[i]))
    ensures SomeoneMissing(arrived)
  {
    var j :| 0 <= j < |arrived| && Belongs(arrived[j], BarrierKey(warps[i])) &&
             arrived[j].state != Completed && arrived[j].state != StalledAtBarrier;
    forall a | 0 <= a < |arrived| && arrived[a].state == StalledAtBarrier
      ensures MissingFor(arrived, a)
    {
      if SameBlock(arrived[a], arrived[j]) {
      } else {
        assert a != i;
        assert MissingFor(warps, a);
        var b :| 0 <= b < |warps| && SameBlock(warps[a], warps[b]) && warps[b].state != StalledAtBarrier;
        assert b != i;
        assert SameBlock(arrived[a], arrived[b]);
      }
    }
  }

  lemma ReleasedMissing(warps: seq<WarpVal>, i: nat, arrived: seq<WarpVal>, cycle: nat)
    requires SomeoneMissing(warps) && i < |warps| && warps[i].threads != []
    requires |arrived| == |warps| && BlockOf(arrived[i]) == BlockOf(warps[i]) && arrived[i].state == StalledAtBarrier
    requires forall j :: 0 <= j < |warps| && j != i ==> arrived[j] == warps[j]
    ensures SomeoneMissing(ReleaseBlock(arrived, BarrierKey(warps[i]), cycle))
  {
    var key := BarrierKey(warps[i]);
    var released := ReleaseBlock(arrived, key, cycle);
    forall a | 0 <= a < |released| && released[a].state == StalledAtBarrier
      ensures MissingFor(released, a)
    {
      assert !Belongs(arrived[a], key) && a != i;
      assert MissingFor(warps, a);
      var b :| 0 <= b < |warps| && SameBlock(warps[a], warps[b]) && warps[b].state != StalledAtBarrier;
      assert b != i;
      assert SameBlock(released[a], released[b]);
    }
  }

  lemma SameCountsMissing(before: seq<WarpVal>, after: seq<WarpVal>)
    requires SomeoneMissing(before) && |before| == |after|
    requires forall i :: 0 <= i < |before| ==> SameCounts(before[i], after[i])
    ensures SomeoneMissing(after)
  {
    forall i | 0 <= i < |after| && after[i].state == StalledAtBarrier
      ensures MissingFor(after, i)
    {
      assert SameCounts(before[i], after[i]);
      assert MissingFor(before, i);
      var j :| 0 <= j < |before| && SameBlock(before[i], before[j]) && before[j].state != StalledAtBarrier;
      assert SameCounts(before[j], after[j]);
      assert SameBlock(after[i], after[j]);
    }
  }

  lemma FinishKeeps(k: Code, x: WarpVal, status: Status, latency: nat)
    requires Mirrors(k, x) && Open(k, |k|) == [] && Rooted(x) && Paced(k, x)
    ensures Rooted(Finish(k, x, status, latency)) && Paced(k, Finish(k, x, status, latency))
    ensures x.pc == |k| ==> x.stack == []
  {
    if x.stack != [] {
      RootedTokens(x.stack);
    }
    hide Open, Tokens, NestedStack, BarriersBefore;
  }

  /** Everything but the core and the counts of a warp is irrelevant to its pace. */
  lemma SamePace(k: Code, a: WarpVal, b: WarpVal)
    requires SameCore(a, b) && a.arrivals == b.arrivals
    ensures Rooted(a) ==> Rooted(b)
    ensures Paced(k, a) ==> Paced(k, b)
  {
  }

  lemma PacedAfterRelease(k: Code, w: WarpVal, w': WarpVal)
    requires PacedWarp(k, w) && SameCore(w', w) && w'.arrivals == w.arrivals
    requires w' == w || (w.state == StalledAtBarrier && w'.state == Ready)
    ensures PacedWarp(k, w')
  {
    SamePace(k, w, w');
    GoodAfterRelease(k, w, w');
  }

  lemma ArrivalKeepsArrivals(warps: seq<WarpVal>, i: nat, cycle: nat)
    requires i < |warps| && BarrierArrival(warps, i, cycle).Ok?
    ensures forall j :: 0 <= j < |warps| && j != i ==>
              BarrierArrival(warps, i, cycle).value[j].arrivals == warps[j].arrivals
    ensures BarrierArrival(warps, i, cycle).value[i].arrivals == warps[i].arrivals + 1
  {
  }

  /** What a throw can still be about: the program's data accesses and operands. */
  predicate DataError(e: Error) { e in {OutOfRange, MixedSpaces, CorruptPolicy, BadDimensions} }

  lemma ControlNeverThrows(k: Code, w: WarpVal, m: MemVal)
    requires WellStructured(k) && InStep(k, w) && Rooted(w) && w.pc < |k|
    requires k[w.pc].opcode in {BRANCH, SSY, SYNC, BARRIER}
    ensures Execute(k[w.pc], w, m).Ok?
  {
    hide Open, Tokens, NestedStack, BarriersBefore, Laminar, Chained;
    if k[w.pc].opcode == SYNC {
      assert GoodInstruction(k, w.pc);
      SyncMirrors(k, w);
    } else if k[w.pc].opcode == BARRIER {
      BarrierConverges(k, w, m);
    }
  }

  lemma DataThrows(inst: Instruction, w: WarpVal, m: MemVal)
    requires inst.opcode !in {BRANCH, SSY, SYNC, BARRIER} && Execute(inst, w, m).Throw?
    ensures DataError(Execute(inst, w, m).error)
  {
    hide WarpLoad, WarpStore, WarpAtomicAdd, AluLanes, Scatter, LoadAddresses, WriteRequests;
    if IsAlu(inst.opcode) {
      AluThrows(inst, w.threads, w.mask, 0);
    } else if inst.opcode == LOAD {
      AddressThrows(inst, w.threads, w.mask, 0);
      if LoadAddresses(inst, w.threads, w.mask, 0).Ok? {
        var addresses := LoadAddresses(inst, w.threads, w.mask, 0).value;
        MemoryThrows(m, addresses, []);
        if WarpLoad(m, addresses).Ok? {
          ScatterThrows(inst.dst, w.threads, w.mask, WarpLoad(m, addresses).value.values, 0);
        }
      }
    } else {
      RequestThrows(inst, w.threads, w.mask, 0);
      if WriteRequests(inst, w.threads, w.mask, 0).Ok? {
        MemoryThrows(m, [], WriteRequests(inst, w.threads, w.mask, 0).value);
      }
    }
  }

  lemma AddressThrows(inst: Instruction, ts: seq<Thread>, mask: set<nat>, i: nat)
    requires i <= |ts|
    ensures LoadAddresses(inst, ts, mask, i).Throw? ==> LoadAddresses(inst, ts, mask, i).error == OutOfRange
    decreases |ts| - i
  {
  }

  lemma RequestThrows(inst: Instruction, ts: seq<Thread>, mask: set<nat>, i: nat)
    requires i <= |ts|
    ensures WriteRequests(inst, ts, mask, i).Throw? ==> WriteRequests(inst, ts, mask, i).error == OutOfRange
    decreases |ts| - i
  {
  }

  lemma AluThrows(inst: Instruction, ts: seq<Thread>, mask: set<nat>, i: nat)
    requires i <= |ts| && IsAlu(inst.opcode)
    ensures AluLanes(inst, ts, mask, i).Throw? ==> AluLanes(inst, ts, mask, i).error == OutOfRange
    decreases |ts| - i
  {
  }

  lemma ScatterThrows(dst: int, ts: seq<Thread>, mask: set<nat>, values: seq<int>, i: nat)
    requires i <= |ts|
    ensures Scatter(dst, ts, mask, values, i).Throw? ==> Scatter(dst, ts, mask, values, i).error == OutOfRange
    decreases |ts| - i
  {
  }

  lemma ServiceThrows(m: MemVal, lines: seq<nat>, isWrite: bool, latency: nat, dirty: nat)
    ensures var r := ServiceLines(m, lines, isWrite, latency, dirty); r.Throw? ==> DataError(r.error)
    decreases |lines|
  {
    if lines != [] {
      var t := CacheLatency(m, lines[0], isWrite);
      if t.Ok? {
        ServiceThrows(t.value.mem, lines[1..], isWrite, Max(latency, t.value.latency), dirty + t.value.dirtyEvictions);
      }
    }
  }

  lemma MemoryThrows(m: MemVal, addresses: seq<nat>, writes: seq<Write>)
    ensures WarpLoad(m, addresses).Throw? ==> DataError(WarpLoad(m, addresses).error)
    ensures WarpStore(m, writes).Throw? ==> DataError(WarpStore(m, writes).error)
    ensures WarpAtomicAdd(m, writes).Throw? ==> DataError(WarpAtomicAdd(m, writes).error)
  {
    hide ServiceLines, CacheLatency, Coalesce, BankConflicts;
    ServiceThrows(m, Coalesce(addresses, m.l1.lineSize), false, 1, 0);
    ServiceThrows(m, Coalesce(AddressesOf(writes), m.l1.lineSize), true, 1, 0);
    WordThrows(m.data, addresses, writes);
  }

  lemma WordThrows(d: Data, addresses: seq<nat>, writes: seq<Write>)
    ensures LoadAll(d, addresses).Throw? ==> LoadAll(d, addresses).error == OutOfRange
    ensures StoreAll(d, writes).Throw? ==> StoreAll(d, writes).error == OutOfRange
    ensures AddAll(d, writes).Throw? ==> AddAll(d, writes).error == OutOfRange
    decreases |addresses| + |writes|
  {
    if addresses != [] {
      WordThrows(d, addresses[1..], writes);
    }
    if writes != [] {
      var w := writes[0];
      if StoreWord(d, w.address, w.value).Ok? {
        WordThrows(StoreWord(d, w.address, w.value).value, addresses, writes[1..]);
      }
      if AddWord(d, w.address, w.value).Ok? {
        WordThrows(AddWord(d, w.address, w.value).value, addresses, writes[1..]);
      }
    }
  }

  /** Issuing keeps the invariant, and throws only over data. */
  lemma IssueLively(k: Code, warps: seq<WarpVal>, i: nat, m: MemVal, cycle: nat)
    requires WellStructured(k) && Lively(k, warps) && i < |warps| && warps[i].state == Ready
    ensures var r := Issue(k, warps, i, m, cycle);
            if r.Ok? then Lively(k, r.value.warps) else DataError(r.error)
  {
    var w := warps[i];
    assert PacedWarp(k, w);
    if w.pc >= |k| {
      EndLively(k, warps, i, m, cycle);
    } else {
      var o := Execute(k[w.pc], w, m);
      if o.Throw? {
        if k[w.pc].opcode in {BRANCH, SSY, SYNC, BARRIER} {
          ControlNeverThrows(k, w, m);
        } else {
          DataThrows(k[w.pc], w, m);
        }
      } else {
        ExecutedLively(k, warps, i, m, cycle);
      }
    }
  }

  lemma EndLively(k: Code, warps: seq<WarpVal>, i: nat, m: MemVal, cycle: nat)
    requires WellStructured(k) && Lively(k, warps) && i < |warps| && warps[i].state == Ready && warps[i].pc >= |k|
    ensures Issue(k, warps, i, m, cycle).Ok? && Lively(k, Issue(k, warps, i, m, cycle).value.warps)
  {
    hide WellStructured, Lockstep, SomeoneMissing, InStep, Rooted;
    var r := Issue(k, warps, i, m, cycle).value;
    IssueLockstep(k, warps, i, m, cycle);
    SameCountsMissing(warps, r.warps);
    SamePace(k, warps[i], r.warps[i]);
    SameCoreSame(k, warps[i], r.warps[i]);
  }

  /** The warps after an executed instruction's barrier arrival, if any. */
  function Arrived(warps: seq<WarpVal>, i: nat, o: Outcome, cycle: nat): Result<seq<WarpVal>>
    requires i < |warps|
  {
    if o.status == BarrierReached then BarrierArrival(warps[i := o.warp], i, cycle) else Ok(warps[i := o.warp])
  }

  lemma ArrivedFacts(k: Code, warps: seq<WarpVal>, i: nat, m: MemVal, cycle: nat)
    requires WellStructured(k) && Lively(k, warps) && i < |warps| && warps[i].state == Ready
    requires warps[i].pc < |k| && Execute(k[warps[i].pc], warps[i], m).Ok?
    ensures var o := Execute(k[warps[i].pc], warps[i], m).value;
            && Arrived(warps, i, o, cycle).Ok?
            && SomeoneMissing(Arrived(warps, i, o, cycle).value)
  {
    hide WellStructured, Lockstep, BarrierArrival, InStep, Rooted, Paced;
    var w := warps[i];
    assert PacedWarp(k, w);
    var o := Execute(k[w.pc], w, m).value;
    ExecuteKeepsState(k[w.pc], w, m);
    ExecuteBlock(k[w.pc], w, m);
    ExecuteKeeps(k, w, m);
    if k[w.pc].opcode == BARRIER {
      ArrivalSucceeds(k, warps, i, o.warp, cycle);
    } else {
      SameCountsMissing(warps, warps[i := o.warp]);
    }
  }

  lemma ArrivedPaced(k: Code, warps: seq<WarpVal>, i: nat, m: MemVal, cycle: nat, j: nat)
    requires WellStructured(k) && Lively(k, warps) && i < |warps| && warps[i].state == Ready && j < |warps|
    requires warps[i].pc < |k| && Execute(k[warps[i].pc], warps[i], m).Ok?
    requires Arrived(warps, i, Execute(k[warps[i].pc], warps[i], m).value, cycle).Ok?
    ensures var o := Execute(k[warps[i].pc], warps[i], m).value;
            var a := Arrived(warps, i, o, cycle).value;
            && |a| == |warps|
            && (j != i ==> PacedWarp(k, a[j]))
            && SameCore(a[i], o.warp) && Rooted(a[i]) && Paced(k, a[i])
            && (a[i].state == StalledAtBarrier ==> o.status == BarrierReached)
  {
    hide WellStructured, Lockstep, SomeoneMissing, InStep, BarrierArrival, Execute, Rooted, Paced;
    var w := warps[i];
    assert PacedWarp(k, w) && PacedWarp(k, warps[j]);
    var o := Execute(k[w.pc], w, m).value;
    var executed := warps[i := o.warp];
    ExecuteKeepsState(k[w.pc], w, m);
    ExecuteKeeps(k, w, m);
    var a := Arrived(warps, i, o, cycle).value;
    if o.status == BarrierReached {
      ArrivalKeepsCores(executed, i, cycle);
      ArrivalKeepsArrivals(executed, i, cycle);
    }
    SamePace(k, o.warp.(arrivals := a[i].arrivals), a[i]);
    RootedSame(o.warp, o.warp.(arrivals := a[i].arrivals));
    if j != i {
      PacedAfterRelease(k, warps[j], a[j]);
    }
  }

  lemma RootedSame(a: WarpVal, b: WarpVal)
    requires SameCore(a, b)
    ensures Rooted(a) <==> Rooted(b)
  {
  }

  lemma ExecutedLively(k: Code, warps: seq<WarpVal>, i: nat, m: MemVal, cycle: nat)
    requires WellStructured(k) && Lively(k, warps) && i < |warps| && warps[i].state == Ready
    requires warps[i].pc < |k| && Execute(k[warps[i].pc], warps[i], m).Ok?
    ensures Issue(k, warps, i, m, cycle).Ok? && Lively(k, Issue(k, warps, i, m, cycle).value.warps)
  {
    hide Execute, Lockstep, SomeoneMissing, Rooted, Paced, InStep, BarrierArrival, Mirrors, GoodThroughout;
    var w := warps[i];
    var o := Execute(k[w.pc], w, m).value;
    assert PacedWarp(k, w);
    ArrivedFacts(k, warps, i, m, cycle);
    var a := Arrived(warps, i, o, cycle).value;
    var r := Issue(k, warps, i, m, cycle).value;
    GoodWarpsOf(k, warps);
    IssueMachine(k, warps, i, m, cycle);
    IssueLockstep(k, warps, i, m, cycle);
    ArrivedPaced(k, warps, i, m, cycle, i);
    IssueInStep(k, w, m, a[i]);
    FinishKeeps(k, a[i], o.status, o.latency);
    FinishCounts(k, a[i], o.status, o.latency);
    assert r.warps == a[i := Finish(k, a[i], o.status, o.latency)];
    SameCountsMissing(a, r.warps);
    forall j | 0 <= j < |warps|
      ensures PacedWarp(k, r.warps[j])
    {
      ArrivedPaced(k, warps, i, m, cycle, j);
    }
  }

  lemma GoodWarpsOf(k: Code, warps: seq<WarpVal>)
    requires PacedWarps(k, warps)
    ensures GoodWarps(k, warps)
  {
    forall i | 0 <= i < |warps|
      ensures GoodWarp(k, warps[i])
    {
      assert PacedWarp(k, warps[i]);
    }
  }

  lemma TickStallsLively(k: Code, warps: seq<WarpVal>, cycle: nat)
    requires Lively(k, warps)
    ensures Lively(k, TickStalls(warps, cycle))
  {
    hide Lockstep, SomeoneMissing, InStep, Rooted, Paced;
    var after := TickStalls(warps, cycle);
    SameCountsLockstep(warps, after);
    SameCountsMissing(warps, after);
    forall i | 0 <= i < |warps|
      ensures PacedWarp(k, after[i])
    {
      assert PacedWarp(k, warps[i]);
      SamePace(k, warps[i], after[i]);
      SameCoreSame(k, warps[i], after[i]);
    }
  }

  /** Every tick of a structured kernel keeps the invariant, and throws only over data: never over an empty
      SIMT stack, a divergent barrier or a malformed barrier. */
  lemma TickLively(k: Code, s: SmVal, m: MemVal)
    requires WellStructured(k) && Lively(k, s.warps)
    ensures var t := Tick(k, s, m);
            if t.Ok? then Lively(k, t.value.sm.warps) else DataError(t.error)
  {
    hide WellStructured, Lively, Issue, Select;
    if !IsCompleted(s.warps) {
      var warps := TickStalls(s.warps, s.cycles);
      TickStallsLively(k, s.warps, s.cycles);
      var c := Select(s.sched, warps);
      if c.warp.Some? {
        IssueLively(k, warps, c.warp.value, m, s.cycles + 1);
      }
    }
  }

  lemma FreshPaced(k: Code, id: nat, threads: seq<Thread>, priority: int)
    requires threads != []
    ensures PacedWarp(k, FreshWarp(id, threads, priority))
  {
    FreshInStep(k, id, threads, priority);
  }
}
