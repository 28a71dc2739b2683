/** Every run of an SM on a checked kernel is an interleaving of its scalar threads. */
module SmRefinement {
  import opened Common
  import opened Isa
  import opened WarpModel
  import opened MemoryModel
  import opened ExecutorModel
  import opened SchedulingModel
  import opened SimtStack
  import opened Nesting
  import opened ScalarModel
  import opened Refinement
  import opened SmModel

  /** All scalar threads of an SM, warp by warp, sharing one memory. */
  datatype Machine = Machine(pcs: seq<seq<nat>>, threads: seq<seq<Thread>>, data: Data)

  /** A thread of the machine: its warp and its lane. */
  datatype Place = Place(warp: nat, lane: nat)

  function StepAt(k: Code, c: Machine, at: Place): Result<Machine> {
    if |c.pcs| != |c.threads| || at.warp >= |c.pcs| then Throw(OutOfRange)
    else
      var r :- StepLane(k, Scalars(c.pcs[at.warp], c.threads[at.warp], c.data), at.lane);
      Ok(Machine(c.pcs[at.warp := r.pcs], c.threads[at.warp := r.threads], r.data))
  }

  /** The threads at the places of `schedule` step one after another. */
  function RunPlaces(k: Code, c: Machine, schedule: seq<Place>): Result<Machine>
    decreases |schedule|
  {
    if schedule == [] then Ok(c)
    else
      var c' :- StepAt(k, c, schedule[0]);
      RunPlaces(k, c', schedule[1..])
  }

  function AsMachine(k: Code, warps: seq<WarpVal>, d: Data): Machine {
    Machine(seq(|warps|, i requires 0 <= i < |warps| => LanePcs(k, warps[i])),
            seq(|warps|, i requires 0 <= i < |warps| => warps[i].threads), d)
  }

  function Places(i: nat, lanes: seq<nat>): (s: seq<Place>)
    ensures |s| == |lanes|
  {
    seq(|lanes|, j requires 0 <= j < |lanes| => Place(i, lanes[j]))
  }

  lemma RunOneWarp(k: Code, c: Machine, i: nat, lanes: seq<nat>)
    requires |c.pcs| == |c.threads| && i < |c.pcs|
    ensures var r := RunLanes(k, Scalars(c.pcs[i], c.threads[i], c.data), lanes);
            RunPlaces(k, c, Places(i, lanes)) ==
            if r.Throw? then Throw(r.error)
            else Ok(Machine(c.pcs[i := r.value.pcs], c.threads[i := r.value.threads], r.value.data))
    decreases |lanes|
  {
    if lanes == [] {
      assert c.pcs[i := c.pcs[i]] == c.pcs && c.threads[i := c.threads[i]] == c.threads;
    } else {
      assert Places(i, lanes)[1..] == Places(i, lanes[1..]);
      var r := StepLane(k, Scalars(c.pcs[i], c.threads[i], c.data), lanes[0]);
      if r.Ok? {
        var c' := StepAt(k, c, Place(i, lanes[0])).value;
        RunOneWarp(k, c', i, lanes[1..]);
        var r' := RunLanes(k, Scalars(c'.pcs[i], c'.threads[i], c'.data), lanes[1..]);
        if r'.Ok? {
          assert c'.pcs[i := r'.value.pcs] == c.pcs[i := r'.value.pcs];
          assert c'.threads[i := r'.value.threads] == c.threads[i := r'.value.threads];
        }
      }
    }
  }

  lemma RunPlacesSplit(k: Code, c: Machine, a: seq<Place>, b: seq<Place>)
    requires RunPlaces(k, c, a).Ok?
    ensures RunPlaces(k, c, a + b) == RunPlaces(k, RunPlaces(k, c, a).value, b)
    decreases |a|
  {
    if a == [] {
      assert a + b == b;
    } else {
      assert (a + b)[1..] == a[1..] + b;
      RunPlacesSplit(k, StepAt(k, c, a[0]).value, a[1..], b);
    }
  }

  /** A warp in step whose scheduling state agrees with its progress. */
  ghost predicate GoodWarp(k: Code, w: WarpVal) {
    InStep(k, w) && (w.state == Completed ==> w.pc == |k|) && (w.state == Stalled ==> w.stallCycles > 0)
  }

  ghost predicate GoodWarps(k: Code, warps: seq<WarpVal>) {
    forall i :: 0 <= i < |warps| ==> GoodWarp(k, warps[i])
  }

  /** A barrier arrival changes scheduling state only. */
  lemma ArrivalKeepsCores(warps: seq<WarpVal>, i: nat, cycle: nat)
    requires i < |warps| && BarrierArrival(warps, i, cycle).Ok?
    ensures forall j :: 0 <= j < |warps| ==> SameCore(BarrierArrival(warps, i, cycle).value[j], warps[j])
    ensures forall j :: 0 <= j < |warps| && j != i ==>
              var a := BarrierArrival(warps, i, cycle).value[j];
              a == warps[j] || (warps[j].state == StalledAtBarrier && a.state == Ready)
    ensures BarrierArrival(warps, i, cycle).value[i].state in {StalledAtBarrier, Ready}
  {
  }

  /** The threads an issue steps, in order. */
  function IssuePlaces(k: Code, warps: seq<WarpVal>, i: nat): seq<Place>
    requires i < |warps|
  {
    if warps[i].pc >= |k| then [] else Places(i, Acting(k, warps[i]))
  }

  lemma SameCoreSameMachine(k: Code, a: seq<WarpVal>, b: seq<WarpVal>, i: nat, d: Data, d': Data)
    requires |a| == |b| && i < |a|
    requires forall j :: 0 <= j < |a| && j != i ==> SameCore(b[j], a[j])
    ensures var m := AsMachine(k, a, d);
            AsMachine(k, b, d') == Machine(m.pcs[i := LanePcs(k, b[i])], m.threads[i := b[i].threads], d')
  {
    forall j | 0 <= j < |a| && j != i
      ensures LanePcs(k, b[j]) == LanePcs(k, a[j])
    {
      SameCoreSame(k, a[j], b[j]);
    }
  }

  /** Issuing one warp of an SM steps its acting threads and keeps every warp good. */
  lemma IssueMachine(k: Code, warps: seq<WarpVal>, i: nat, m: MemVal, cycle: nat)
    requires WellNested(k) && GoodWarps(k, warps) && i < |warps| && warps[i].state == Ready
    requires Issue(k, warps, i, m, cycle).Ok?
    ensures var r := Issue(k, warps, i, m, cycle).value;
            && GoodWarps(k, r.warps)
            && RunPlaces(k, AsMachine(k, warps, m.data), IssuePlaces(k, warps, i)) ==
               Ok(AsMachine(k, r.warps, r.mem.data))
  {
    hide Execute, Finish, WellNested, Laminar, Chained, Mirrors, Acting, RunLanes;
    var w := warps[i];
    var r := Issue(k, warps, i, m, cycle).value;
    if w.pc >= |k| {
      RetiredGood(k, w);
      SameCoreSameMachine(k, warps, r.warps, i, m.data, m.data);
      assert LanePcs(k, r.warps[i]) == LanePcs(k, w);
      var c := AsMachine(k, warps, m.data);
      assert c.pcs[i := c.pcs[i]] == c.pcs && c.threads[i := c.threads[i]] == c.threads;
    } else {
      var o := Execute(k[w.pc], w, m).value;
      ExecuteKeepsState(k[w.pc], w, m);
      var executed := warps[i := o.warp];
      var arrived := if o.status == BarrierReached then BarrierArrival(executed, i, cycle).value else executed;
      if o.status == BarrierReached {
        ArrivalKeepsCores(executed, i, cycle);
      }
      IssueInStep(k, w, m, arrived[i]);
      IssueRefines(k, w, m, arrived[i]);
      SameCoreSameMachine(k, warps, r.warps, i, m.data, r.mem.data);
      RunOneWarp(k, AsMachine(k, warps, m.data), i, Acting(k, w));
      forall j | 0 <= j < |warps|
        ensures GoodWarp(k, r.warps[j])
      {
        if j == i {
          FinishGood(k, arrived[i], o.status, o.latency);
        } else {
          GoodAfterRelease(k, warps[j], arrived[j]);
        }
      }
    }
  }

  lemma RetiredGood(k: Code, w: WarpVal)
    requires GoodWarp(k, w) && w.pc >= |k|
    ensures GoodWarp(k, w.(state := Completed))
  {
  }

  lemma ExecuteKeepsState(inst: Instruction, w: WarpVal, m: MemVal)
    requires Execute(inst, w, m).Ok?
    ensures var w' := Execute(inst, w, m).value.warp;
            && w'.state == w.state && w'.id == w.id && w'.stallCycles == w.stallCycles && w'.priority == w.priority
            && w'.readySince == w.readySince && w'.arrivals == w.arrivals && w'.releases == w.releases
            && |w'.threads| == |w.threads|
  {
  }

  lemma FinishGood(k: Code, x: WarpVal, status: Status, latency: nat)
    requires x.state in {Ready, StalledAtBarrier}
    requires InStep(k, Finish(k, x, status, latency)) && x.pc <= |k|
    ensures GoodWarp(k, Finish(k, x, status, latency))
  {
  }

  lemma GoodAfterRelease(k: Code, w: WarpVal, w': WarpVal)
    requires GoodWarp(k, w) && SameCore(w', w) && |w'.threads| == |w.threads|
    requires w' == w || (w.state == StalledAtBarrier && w'.state == Ready)
    ensures GoodWarp(k, w')
  {
  }

  lemma SameCoreSame(k: Code, a: WarpVal, b: WarpVal)
    requires SameCore(a, b)
    ensures InStep(k, a) ==> InStep(k, b)
    ensures LanePcs(k, a) == LanePcs(k, b)
  {
    assert forall l :: 0 <= l < |a.threads| ==> LanePc(k, a, l) == LanePc(k, b, l);
  }

  lemma TickStallsGood(k: Code, warps: seq<WarpVal>, cycle: nat, d: Data)
    requires GoodWarps(k, warps)
    ensures GoodWarps(k, TickStalls(warps, cycle))
    ensures AsMachine(k, TickStalls(warps, cycle), d) == AsMachine(k, warps, d)
  {
    var after := TickStalls(warps, cycle);
    forall i | 0 <= i < |warps|
      ensures GoodWarp(k, after[i]) && LanePcs(k, after[i]) == LanePcs(k, warps[i])
    {
      SameCoreSame(k, warps[i], after[i]);
      hide InStep, LanePcs;
    }
  }

  /** The threads one tick steps, in order. */
  function TickPlaces(k: Code, s: SmVal): seq<Place> {
    if IsCompleted(s.warps) then []
    else
      var warps := TickStalls(s.warps, s.cycles);
      var c := Select(s.sched, warps);
      if c.warp.None? then [] else IssuePlaces(k, warps, c.warp.value)
  }

  /** The warps `after`, all good, and memory `d'` are what `places` make of `before` and `d`. */
  ghost predicate Simulates(k: Code, before: seq<WarpVal>, d: Data, places: seq<Place>, after: seq<WarpVal>, d': Data) {
    GoodWarps(k, after) && RunPlaces(k, AsMachine(k, before, d), places) == Ok(AsMachine(k, after, d'))
  }

  lemma IssueSimulates(k: Code, s: SmVal, m: MemVal, i: nat)
    requires WellNested(k) && GoodWarps(k, s.warps)
    requires var warps := TickStalls(s.warps, s.cycles);
             i < |warps| && warps[i].state == Ready && Issue(k, warps, i, m, s.cycles + 1).Ok?
    ensures var warps := TickStalls(s.warps, s.cycles);
            var r := Issue(k, warps, i, m, s.cycles + 1).value;
            Simulates(k, s.warps, m.data, IssuePlaces(k, warps, i), r.warps, r.mem.data)
  {
    TickStallsGood(k, s.warps, s.cycles, m.data);
    IssueMachine(k, TickStalls(s.warps, s.cycles), i, m, s.cycles + 1);
  }

  /** One tick, under any scheduler, is the scalar steps of the acting lanes of the selected warp. */
  lemma TickRefines(k: Code, s: SmVal, m: MemVal)
    requires WellNested(k) && GoodWarps(k, s.warps) && Tick(k, s, m).Ok?
    ensures var t := Tick(k, s, m).value;
            Simulates(k, s.warps, m.data, TickPlaces(k, s), t.sm.warps, t.mem.data)
  {
    hide WellNested, GoodWarps, Issue, Select, IssuePlaces, AsMachine, TickStalls;
    if !IsCompleted(s.warps) {
      var c := Select(s.sched, TickStalls(s.warps, s.cycles));
      if c.warp.Some? {
        IssueSimulates(k, s, m, c.warp.value);
      } else {
        TickStallsGood(k, s.warps, s.cycles, m.data);
      }
    }
  }

  lemma SimulatesTrans(k: Code, a: seq<WarpVal>, d: Data, p: seq<Place>, b: seq<WarpVal>, d': Data, q: seq<Place>,
                       c: seq<WarpVal>, d'': Data)
    requires Simulates(k, a, d, p, b, d') && Simulates(k, b, d', q, c, d'')
    ensures Simulates(k, a, d, p + q, c, d'')
  {
    RunPlacesSplit(k, AsMachine(k, a, d), p, q);
  }

  function Ticks(k: Code, s: SmVal, m: MemVal, n: nat): Result<Ticked> {
    if n == 0 then Ok(Ticked(s, m))
    else
      var t :- Ticks(k, s, m, n - 1);
      Tick(k, t.sm, t.mem)
  }

  function TicksPlaces(k: Code, s: SmVal, m: MemVal, n: nat): seq<Place>
    requires Ticks(k, s, m, n).Ok?
  {
    if n == 0 then []
    else TicksPlaces(k, s, m, n - 1) + TickPlaces(k, Ticks(k, s, m, n - 1).value.sm)
  }

  /** Any number of ticks is a run of the scalar threads. */
  lemma {:induction false} TicksRefine(k: Code, s: SmVal, m: MemVal, n: nat)
    requires WellNested(k) && GoodWarps(k, s.warps) && Ticks(k, s, m, n).Ok?
    ensures var t := Ticks(k, s, m, n).value;
            Simulates(k, s.warps, m.data, TicksPlaces(k, s, m, n), t.sm.warps, t.mem.data)
  {
    hide WellNested, GoodWarps, TickPlaces, Tick;
    if n > 0 {
      TicksRefine(k, s, m, n - 1);
      var t, t' := Ticks(k, s, m, n - 1).value, Ticks(k, s, m, n).value;
      TickRefines(k, t.sm, t.mem);
      SimulatesTrans(k, s.warps, m.data, TicksPlaces(k, s, m, n - 1), t.sm.warps, t.mem.data, TickPlaces(k, t.sm),
                     t'.sm.warps, t'.mem.data);
    }
  }

  // ---------------------------------------------------------------------------------------------
  // Without stores the lanes cannot see each other: each ends as if it had run alone

  predicate StoreFree(k: Code) {
    forall p :: 0 <= p < |k| ==> k[p].opcode != STORE && k[p].opcode != ATOMIC_ADD
  }

  /** One thread run alone for `n` steps over a memory it does not write. */
  datatype Solo = Solo(pc: nat, thread: Thread)

  function StepSolo(k: Code, c: Solo, d: Data): Result<Solo> {
    if c.pc >= |k| then Throw(OutOfRange)
    else
      var (t, _) :- ScalarExecute(k[c.pc], c.thread, d);
      Ok(Solo(NextPc(k, c.pc, c.thread), t))
  }

  function RunSolo(k: Code, c: Solo, d: Data, n: nat): Result<Solo> {
    if n == 0 then Ok(c)
    else
      var c' :- RunSolo(k, c, d, n - 1);
      StepSolo(k, c', d)
  }

  predicate InMachine(c: Machine, at: Place) {
    && |c.pcs| == |c.threads| && at.warp < |c.pcs|
    && |c.pcs[at.warp]| == |c.threads[at.warp]| && at.lane < |c.pcs[at.warp]|
  }

  function SoloAt(c: Machine, at: Place): Solo
    requires InMachine(c, at)
  {
    Solo(c.pcs[at.warp][at.lane], c.threads[at.warp][at.lane])
  }

  function CountAt(schedule: seq<Place>, at: Place): nat
    decreases |schedule|
  {
    if schedule == [] then 0
    else CountAt(schedule[..|schedule| - 1], at) + (if schedule[|schedule| - 1] == at then 1 else 0)
  }

  lemma {:induction false} SoloProjection(k: Code, c: Machine, schedule: seq<Place>, at: Place)
    requires StoreFree(k) && InMachine(c, at) && RunPlaces(k, c, schedule).Ok?
    ensures var c' := RunPlaces(k, c, schedule).value;
            && InMachine(c', at) && c'.data == c.data
            && RunSolo(k, SoloAt(c, at), c.data, CountAt(schedule, at)) == Ok(SoloAt(c', at))
    decreases |schedule|
  {
    hide StoreFree, StepAt, StepSolo, InMachine;
    if schedule != [] {
      var init, last := schedule[..|schedule| - 1], schedule[|schedule| - 1];
      assert schedule == init + [last];
      RunPrefix(k, c, init, [last]);
      SoloProjection(k, c, init, at);
      RunPlacesSplit(k, c, init, [last]);
      var before := RunPlaces(k, c, init).value;
      assert RunPlaces(k, before, [last]) == StepAt(k, before, last) by {
        assert [last][1..] == [];
      }
      StepProjection(k, before, last, at);
    }
  }

  lemma RunPrefix(k: Code, c: Machine, a: seq<Place>, b: seq<Place>)
    requires RunPlaces(k, c, a + b).Ok?
    ensures RunPlaces(k, c, a).Ok?
    decreases |a|
  {
    if a != [] {
      assert (a + b)[1..] == a[1..] + b;
      RunPrefix(k, StepAt(k, c, a[0]).value, a[1..], b);
    }
  }

  lemma StepProjection(k: Code, c: Machine, step: Place, at: Place)
    requires StoreFree(k) && InMachine(c, at) && StepAt(k, c, step).Ok?
    ensures var c' := StepAt(k, c, step).value;
            && InMachine(c', at) && c'.data == c.data
            && (if step == at then StepSolo(k, SoloAt(c, at), c.data) == Ok(SoloAt(c', at))
                else SoloAt(c', at) == SoloAt(c, at))
  {
  }

  lemma MachinePlace(k: Code, warps: seq<WarpVal>, d: Data, at: Place)
    ensures InMachine(AsMachine(k, warps, d), at) <==> at.warp < |warps| && at.lane < |warps[at.warp].threads|
    ensures at.warp < |warps| && at.lane < |warps[at.warp].threads| ==>
              SoloAt(AsMachine(k, warps, d), at) ==
                Solo(LanePc(k, warps[at.warp], at.lane), warps[at.warp].threads[at.lane])
  {
  }

  /** In a checked kernel without stores, when a warp completes, every lane has run to the end of the kernel and
      holds the registers and predicate it would hold had it run alone. */
  lemma CompletedLanesRanAlone(k: Code, s: SmVal, m: MemVal, n: nat, at: Place) returns (steps: nat)
    requires WellNested(k) && StoreFree(k) && GoodWarps(k, s.warps) && Ticks(k, s, m, n).Ok?
    requires at.warp < |s.warps| && at.lane < |s.warps[at.warp].threads|
    ensures var t := Ticks(k, s, m, n).value.sm;
            && at.warp < |t.warps| && at.lane < |t.warps[at.warp].threads|
            && (t.warps[at.warp].state == Completed ==>
                  RunSolo(k, Solo(LanePc(k, s.warps[at.warp], at.lane), s.warps[at.warp].threads[at.lane]), m.data,
                    steps) ==
                  Ok(Solo(|k|, t.warps[at.warp].threads[at.lane])))
  {
    hide Ticks, TicksPlaces, AsMachine, RunPlaces, RunSolo, InMachine, SoloAt, StoreFree, WellNested, InStep, CountAt,
         LanePc;
    TicksRefine(k, s, m, n);
    var t := Ticks(k, s, m, n).value;
    var before, after := AsMachine(k, s.warps, m.data), AsMachine(k, t.sm.warps, t.mem.data);
    steps := CountAt(TicksPlaces(k, s, m, n), at);
    MachinePlace(k, s.warps, m.data, at);
    MachineData(k, s.warps, m.data);
    SoloProjection(k, before, TicksPlaces(k, s, m, n), at);
    MachinePlace(k, t.sm.warps, t.mem.data, at);
    if t.sm.warps[at.warp].state == Completed {
      CompletedLane(k, t.sm.warps[at.warp], at.lane);
    }
  }

  lemma MachineData(k: Code, warps: seq<WarpVal>, d: Data)
    ensures AsMachine(k, warps, d).data == d
  {
  }

  lemma CompletedLane(k: Code, w: WarpVal, l: nat)
    requires GoodWarp(k, w) && w.state == Completed
    ensures LanePc(k, w, l) == |k|
  {
  }
}
