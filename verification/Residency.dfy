/** Resource accounting of one SM: what is allocated is what is resident, and it all comes back. */
module Residency {
  import opened Isa
  import opened WarpModel
  import opened MemoryModel
  import opened ExecutorModel
  import opened SchedulingModel
  import opened SmModel
  import opened SmRefinement
  import opened Barriers

  /** The sum of what the resident blocks take. */
  function Total(resident: seq<ResidentBlock>): Usage {
    if resident == [] then NOTHING else Add(Total(resident[..|resident| - 1]), resident[|resident| - 1])
  }

  ghost predicate DistinctIds(resident: seq<ResidentBlock>) {
    forall i, j :: 0 <= i < j < |resident| ==> resident[i].blockId != resident[j].blockId
  }

  predicate IsResident(resident: seq<ResidentBlock>, w: WarpVal) {
    exists r :: 0 <= r < |resident| && Belongs(w, resident[r].blockId)
  }

  /** Usage is the total of the resident blocks, within the limits, and every warp belongs to one of them. */
  ghost predicate Accounted(s: SmVal, limits: Limits) {
    && s.usage == Total(s.resident) && Within(s.usage, limits)
    && DistinctIds(s.resident)
    && AllHoused(s)
  }

  ghost predicate AllHoused(s: SmVal) {
    forall i :: 0 <= i < |s.warps| ==> IsResident(s.resident, s.warps[i])
  }

  lemma TotalBlocks(resident: seq<ResidentBlock>)
    ensures Total(resident).blocks == |resident|
    ensures var t := Total(resident); t.warps >= 0 && t.threads >= 0 && t.registers >= 0 && t.sharedMemory >= 0
  {
  }

  lemma TotalMiddle(a: seq<ResidentBlock>, r: ResidentBlock, b: seq<ResidentBlock>)
    ensures Total(a + [r] + b) == Add(Total(a + b), r)
  {
    if b == [] {
      assert a + [r] + b == a + [r] && a + b == a;
    } else {
      var init := b[..|b| - 1];
      assert (a + [r] + b)[..|a + [r] + b| - 1] == a + [r] + init;
      assert (a + b)[..|a + b| - 1] == a + init;
      TotalMiddle(a, r, init);
    }
  }

  lemma TotalWithout(resident: seq<ResidentBlock>, i: nat)
    requires i < |resident|
    ensures Total(resident[..i] + resident[i + 1..]) == Remove(Total(resident), resident[i])
  {
    hide Total;
    assert resident == resident[..i] + [resident[i]] + resident[i + 1..];
    TotalMiddle(resident[..i], resident[i], resident[i + 1..]);
  }

  lemma WithoutMembers(warps: seq<WarpVal>, blockId: nat)
    ensures forall w :: w in WithoutBlock(warps, blockId) <==> w in warps && !Belongs(w, blockId)
  {
    if warps != [] {
      WithoutMembers(warps[..|warps| - 1], blockId);
      assert warps == warps[..|warps| - 1] + [warps[|warps| - 1]];
    }
  }

  /** Releasing one completed block keeps the account. */
  lemma ReleaseOneAccounted(s: SmVal, limits: Limits, i: nat)
    requires Accounted(s, limits) && i < |s.resident|
    ensures Accounted(ReleaseOne(s, i), limits)
  {
    hide Total, AllHoused;
    TotalWithout(s.resident, i);
    TotalNonNegative(s.resident[i]);
    WithoutMembers(s.warps, s.resident[i].blockId);
    StillHoused(s, limits, i);
    DistinctWithout(s.resident, i);
    assert Within(ReleaseOne(s, i).usage, limits);
  }

  lemma TotalNonNegative(r: ResidentBlock)
    ensures forall u: Usage, limits: Limits :: Within(u, limits) ==> Within(Remove(u, r), limits)
  {
  }

  lemma DistinctWithout(resident: seq<ResidentBlock>, i: nat)
    requires DistinctIds(resident) && i < |resident|
    ensures DistinctIds(resident[..i] + resident[i + 1..])
  {
  }

  lemma StillHoused(s: SmVal, limits: Limits, i: nat)
    requires Accounted(s, limits) && i < |s.resident|
    ensures AllHoused(ReleaseOne(s, i))
  {
    hide Total, Within, Belongs;
    var r := s.resident[i];
    var rest := ReleaseOne(s, i).resident;
    var warps := ReleaseOne(s, i).warps;
    WithoutMembers(s.warps, r.blockId);
    forall j | 0 <= j < |warps|
      ensures IsResident(rest, warps[j])
    {
      var w := warps[j];
      assert w in s.warps && !Belongs(w, r.blockId);
      var a :| 0 <= a < |s.warps| && s.warps[a] == w;
      assert IsResident(s.resident, s.warps[a]);
      var b :| 0 <= b < |s.resident| && Belongs(w, s.resident[b].blockId);
      assert rest[if b < i then b else b - 1] == s.resident[b];
    }
  }

  lemma OtherBlock(warps: seq<WarpVal>, removed: nat, id: nat)
    requires removed != id
    ensures BlockCompleted(WithoutBlock(warps, removed), id) <==> BlockCompleted(warps, id)
  {
    WithoutMembers(warps, removed);
    var left := WithoutBlock(warps, removed);
    if BlockCompleted(left, id) {
      forall i | 0 <= i < |warps| && Belongs(warps[i], id)
        ensures warps[i].state == Completed
      {
        assert warps[i] in left;
      }
    }
    if BlockCompleted(warps, id) {
      forall i | 0 <= i < |left| && Belongs(left[i], id)
        ensures left[i].state == Completed
      {
        assert left[i] in warps;
      }
    }
  }

  /** The warps `b` are among the warps `a`, and only completed ones are missing. */
  ghost predicate OnlyCompletedLeft(a: seq<WarpVal>, b: seq<WarpVal>) {
    && (forall w :: w in b ==> w in a)
    && (forall w :: w in a && w !in b ==> w.state == Completed)
  }

  /** The state after the resident block at `i` is released. */
  function ReleaseOne(s: SmVal, i: nat): SmVal
    requires i < |s.resident|
  {
    var r := s.resident[i];
    s.(warps := WithoutBlock(s.warps, r.blockId), resident := s.resident[..i] + s.resident[i + 1..],
      usage := Remove(s.usage, r))
  }

  ghost predicate NoneCompleted(s: SmVal, n: nat)
    requires n <= |s.resident|
  {
    forall j :: 0 <= j < n ==> !BlockCompleted(s.warps, s.resident[j].blockId)
  }

  lemma ReleaseOneFacts(s: SmVal, limits: Limits, i: nat)
    requires Accounted(s, limits) && i < |s.resident| && NoneCompleted(s, i)
    requires BlockCompleted(s.warps, s.resident[i].blockId)
    ensures var s1 := ReleaseOne(s, i);
            && Accounted(s1, limits) && NoneCompleted(s1, i) && OnlyCompletedLeft(s.warps, s1.warps)
            && forall r :: r in s1.resident ==> r in s.resident
  {
    hide BlockCompleted, Belongs, Total, Within;
    var r := s.resident[i];
    var s1 := ReleaseOne(s, i);
    ReleaseOneAccounted(s, limits, i);
    forall j | 0 <= j < i
      ensures !BlockCompleted(s1.warps, s1.resident[j].blockId)
    {
      OtherBlock(s.warps, r.blockId, s.resident[j].blockId);
    }
    WithoutMembers(s.warps, r.blockId);
    CompletedMembers(s.warps, r.blockId);
  }

  /** Releasing drops exactly the completed blocks and only completed warps. */
  lemma {:induction false} ReleaseAccounted(s: SmVal, limits: Limits, i: nat)
    requires i <= |s.resident| && Accounted(s, limits) && NoneCompleted(s, i)
    ensures var s' := ReleaseFrom(s, i);
            && Accounted(s', limits) && NoneCompleted(s', |s'.resident|) && OnlyCompletedLeft(s.warps, s'.warps)
            && s'.cycles == s.cycles && s'.sched == s.sched
            && forall r :: r in s'.resident ==> r in s.resident
    decreases |s.resident| - i
  {
    hide Accounted, BlockCompleted;
    if i < |s.resident| {
      if BlockCompleted(s.warps, s.resident[i].blockId) {
        ReleaseOneFacts(s, limits, i);
        ReleaseAccounted(ReleaseOne(s, i), limits, i);
      } else {
        ReleaseAccounted(s, limits, i + 1);
      }
    }
  }

  lemma CompletedMembers(warps: seq<WarpVal>, id: nat)
    requires BlockCompleted(warps, id)
    ensures forall w :: w in warps && Belongs(w, id) ==> w.state == Completed
  {
  }

  lemma ResidentBusy(s: SmVal)
    requires s.resident != [] && NoneCompleted(s, |s.resident|)
    ensures !IsCompleted(s.warps)
  {
    assert !BlockCompleted(s.warps, s.resident[0].blockId);
  }

  lemma HomelessNone(s: SmVal, limits: Limits)
    requires Accounted(s, limits)
    ensures s.warps == [] || s.resident != []
  {
    assert s.warps != [] ==> IsResident(s.resident, s.warps[0]);
  }

  /** Once every warp has completed, releasing returns every resource. */
  lemma AllReturned(s: SmVal, limits: Limits)
    requires Accounted(s, limits) && IsCompleted(ReleaseCompleted(s).warps)
    ensures var s' := ReleaseCompleted(s);
            s'.warps == [] && s'.resident == [] && s'.usage == NOTHING
  {
    ReleaseAccounted(s, limits, 0);
    var s' := ReleaseCompleted(s);
    if s'.resident != [] {
      ResidentBusy(s');
    }
    HomelessNone(s', limits);
  }

  lemma AllocateAccounted(s: SmVal, limits: Limits, b: ThreadBlock, needs: Needs)
    requires Accounted(s, limits) && CanAdmit(s.usage, b, limits, needs)
    requires forall i :: 0 <= i < |s.resident| ==> s.resident[i].blockId != b.id
    requires forall i :: 0 <= i < |b.warps| ==> Belongs(b.warps[i], b.id)
    ensures Accounted(AllocateBlock(s, b, needs), limits)
  {
    var s' := AllocateBlock(s, b, needs);
    var r := Footprint(b, needs);
    assert s'.resident[..|s'.resident| - 1] == s.resident;
    forall i | 0 <= i < |s'.warps|
      ensures IsResident(s'.resident, s'.warps[i])
    {
      if i < |s.warps| {
        var a :| 0 <= a < |s.resident| && Belongs(s.warps[i], s.resident[a].blockId);
        assert s'.resident[a] == s.resident[a];
      } else {
        assert s'.resident[|s.resident|] == r;
      }
    }
  }

  /** What a tick never changes of a warp: its id, its priority, and its threads' number and blocks. */
  ghost predicate SameSeat(a: WarpVal, b: WarpVal) {
    && a.id == b.id && a.priority == b.priority && |a.threads| == |b.threads|
    && forall l :: 0 <= l < |a.threads| ==> a.threads[l].blockId == b.threads[l].blockId
  }

  ghost predicate SameSeats(a: seq<WarpVal>, b: seq<WarpVal>) {
    |a| == |b| && forall i :: 0 <= i < |a| ==> SameSeat(a[i], b[i])
  }

  lemma SeatBlock(a: WarpVal, b: WarpVal)
    requires SameSeat(a, b)
    ensures BlockOf(a) == BlockOf(b)
  {
  }

  lemma ExecuteSeat(inst: Instruction, w: WarpVal, m: MemVal)
    requires Execute(inst, w, m).Ok?
    ensures SameSeat(Execute(inst, w, m).value.warp, w)
  {
    ExecuteKeepsState(inst, w, m);
    match inst.opcode
    case LOAD =>
      var addresses := LoadAddresses(inst, w.threads, w.mask, 0).value;
      ScatterBlocks(inst.dst, w.threads, w.mask, WarpLoad(m, addresses).value.values, 0);
    case BRANCH | SSY | SYNC | BARRIER | STORE | ATOMIC_ADD =>
    case _ => AluBlocks(inst, w.threads, w.mask, 0);
  }

  lemma IssueSeats(k: Code, warps: seq<WarpVal>, i: nat, m: MemVal, cycle: nat)
    requires i < |warps| && Issue(k, warps, i, m, cycle).Ok?
    ensures SameSeats(Issue(k, warps, i, m, cycle).value.warps, warps)
  {
    hide Execute;
    if warps[i].pc < |k| {
      ExecuteSeat(k[warps[i].pc], warps[i], m);
    }
  }

  lemma IssueKeepsBlocks(k: Code, warps: seq<WarpVal>, i: nat, m: MemVal, cycle: nat)
    requires i < |warps| && Issue(k, warps, i, m, cycle).Ok?
    ensures forall j :: 0 <= j < |warps| ==> BlockOf(Issue(k, warps, i, m, cycle).value.warps[j]) == BlockOf(warps[j])
  {
    hide Execute;
    if warps[i].pc < |k| {
      ExecuteKeepsState(k[warps[i].pc], warps[i], m);
      ExecuteBlock(k[warps[i].pc], warps[i], m);
    }
  }

  lemma TickStallsKeepsBlocks(warps: seq<WarpVal>, cycle: nat)
    ensures forall j :: 0 <= j < |warps| ==> BlockOf(TickStalls(warps, cycle)[j]) == BlockOf(warps[j])
  {
  }

  /** A tick keeps every warp in its place, with its id, priority and block. */
  lemma TickSeats(k: Code, s: SmVal, m: MemVal)
    requires Tick(k, s, m).Ok?
    ensures SameSeats(Tick(k, s, m).value.sm.warps, s.warps)
  {
    hide Issue, Select;
    if !IsCompleted(s.warps) {
      var warps := TickStalls(s.warps, s.cycles);
      var c := Select(s.sched, warps);
      if c.warp.Some? {
        IssueSeats(k, warps, c.warp.value, m, s.cycles + 1);
      }
    }
  }

  /** A tick keeps the account, and every warp in its place and block. */
  lemma TickAccounted(k: Code, s: SmVal, m: MemVal, limits: Limits)
    requires Accounted(s, limits) && Tick(k, s, m).Ok?
    ensures var s' := Tick(k, s, m).value.sm;
            Accounted(s', limits) && s'.resident == s.resident && SameSeats(s'.warps, s.warps)
  {
    hide Tick, BlockOf, SameSeat;
    TickSeats(k, s, m);
    TickResident(k, s, m);
    var s' := Tick(k, s, m).value.sm;
    forall i | 0 <= i < |s'.warps|
      ensures IsResident(s'.resident, s'.warps[i])
    {
      assert IsResident(s.resident, s.warps[i]);
      SeatBlock(s'.warps[i], s.warps[i]);
      var a :| 0 <= a < |s.resident| && Belongs(s.warps[i], s.resident[a].blockId);
      assert Belongs(s'.warps[i], s'.resident[a].blockId);
    }
  }

  lemma TickResident(k: Code, s: SmVal, m: MemVal)
    requires Tick(k, s, m).Ok?
    ensures var s' := Tick(k, s, m).value.sm; s'.resident == s.resident && s'.usage == s.usage
  {
    hide Issue, Select;
  }
}
