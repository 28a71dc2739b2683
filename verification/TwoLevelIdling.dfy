/** The two-level scheduler is not work-conserving: when it idles, and how it can idle for ever. */
module TwoLevelIdling {
  import opened Common
  import opened Isa
  import opened Sequences
  import opened WarpModel
  import opened MemoryModel
  import opened SchedulingModel
  import opened SchedulerTheory
  import opened SmModel
  import opened SmRefinement

  ghost predicate NoneReady(warps: seq<WarpVal>) { forall i :: 0 <= i < |warps| ==> !IsReady(warps[i]) }

  ghost predicate NoMemberReady(warps: seq<WarpVal>, active: seq<nat>) {
    forall i :: 0 <= i < |warps| && IsReady(warps[i]) ==> warps[i].id !in active
  }

  /** The set is full, loses no member, and holds no ready warp. */
  ghost predicate Excluded(warps: seq<WarpVal>, active: seq<nat>, capacity: nat) {
    |active| == capacity && NoMemberReady(warps, active) && forall id :: id in active ==> Stays(warps, id)
  }

  /** It idles exactly when no warp is ready, or when the set it is called with is full, loses no member, and holds no
      ready warp. */
  lemma IdlesIff(warps: seq<WarpVal>, active: seq<nat>, capacity: nat, rr: nat)
    requires UniqueIds(warps) && NoDup(active) && |active| <= capacity
    ensures Select(TwoLevel(capacity, active, rr), warps).warp.None? <==>
            NoneReady(warps) || Excluded(warps, active, capacity)
  {
    hide UpdateActive, Stays, GoodActive;
    TwoLevelSelects(warps, active, capacity, rr);
    if NoneReady(warps) {
    } else if NoMemberReady(warps, UpdateActive(warps, active, capacity)) {
      SettledSet(warps, active, capacity);
    } else if Excluded(warps, active, capacity) {
      KeepsAll(warps, active);
      FullSetStays(warps, active, capacity);
    }
  }

  /** If a warp is ready and none of the updated set is, then the set is full and was so before, with the same
      members. */
  lemma SettledSet(warps: seq<WarpVal>, active: seq<nat>, capacity: nat)
    requires UniqueIds(warps) && NoDup(active) && |active| <= capacity && !NoneReady(warps)
    requires NoMemberReady(warps, UpdateActive(warps, active, capacity))
    ensures UpdateActive(warps, active, capacity) == active && Excluded(warps, active, capacity)
  {
    hide Stays, UniqueIds, Candidates, Keep, Fill;
    var kept := Keep(warps, active);
    KeepFacts(warps, active);
    KeepLength(warps, active);
    if |kept| < capacity {
      SomeoneAdmitted(warps, kept, capacity);
    }
  }

  /** A set with room takes a ready warp in, if there is one that is not yet a member. */
  lemma SomeoneAdmitted(warps: seq<WarpVal>, kept: seq<nat>, capacity: nat)
    requires UniqueIds(warps) && |kept| < capacity && !NoneReady(warps)
    ensures var active' := Fill(kept, Candidates(warps, kept, |warps|), capacity);
            exists i :: 0 <= i < |warps| && IsReady(warps[i]) && warps[i].id in active'
  {
    hide Candidates, Fill;
    var cands := Candidates(warps, kept, |warps|);
    CandidatesFacts(warps, kept, |warps|);
    FillFacts(kept, cands, capacity);
    var room := Room(kept, cands, capacity);
    var r :| 0 <= r < |warps| && IsReady(warps[r]);
    if warps[r].id !in kept {
      assert Offers(warps[r], kept, Candidate(warps[r].readySince, warps[r].id));
      assert Candidate(warps[r].readySince, warps[r].id) in cands;
      assert cands[0] in cands;
      var i :| 0 <= i < |warps| && Offers(warps[i], kept, cands[0]);
      assert Ids(cands[..room])[0] == warps[i].id;
    }
  }

  lemma KeepsAll(warps: seq<WarpVal>, active: seq<nat>)
    requires forall id :: id in active ==> Stays(warps, id)
    ensures Keep(warps, active) == active
  {
    hide Stays;
    if active != [] {
      KeepsAll(warps, active[..|active| - 1]);
    }
  }

  lemma FullSetStays(warps: seq<WarpVal>, active: seq<nat>, capacity: nat)
    requires Keep(warps, active) == active && |active| == capacity
    ensures UpdateActive(warps, active, capacity) == active
  {
  }

  // ---------------------------------------------------------------------------------------------
  // For ever

  /** The set is full, each member waits at a barrier, and somebody outside is ready. */
  ghost predicate Clogged(s: SmVal) {
    && s.sched.TwoLevel? && UniqueIds(s.warps) && NoDup(s.sched.active) && |s.sched.active| == s.sched.capacity
    && (forall p :: 0 <= p < |s.sched.active| ==> WaitsAs(s.warps, s.sched.active[p]))
    && (forall i :: 0 <= i < |s.warps| ==> s.warps[i].state != Stalled)
    && !NoneReady(s.warps)
  }

  ghost predicate WaitsAs(warps: seq<WarpVal>, id: nat) {
    exists i :: 0 <= i < |warps| && warps[i].id == id && warps[i].state == StalledAtBarrier
  }

  lemma WaiterStays(warps: seq<WarpVal>, id: nat)
    requires UniqueIds(warps) && WaitsAs(warps, id)
    ensures Stays(warps, id) && ScanId(warps, id, 0).None?
  {
    var i :| 0 <= i < |warps| && warps[i].id == id && warps[i].state == StalledAtBarrier;
    FindsIt(warps, i);
  }

  lemma AllStay(warps: seq<WarpVal>, active: seq<nat>)
    requires UniqueIds(warps) && forall p :: 0 <= p < |active| ==> WaitsAs(warps, active[p])
    ensures Keep(warps, active) == active
  {
    hide WaitsAs, UniqueIds, Stays;
    forall id | id in active
      ensures Stays(warps, id)
    {
      WaiterStays(warps, id);
    }
    KeepsAll(warps, active);
  }

  lemma NobodyFound(warps: seq<WarpVal>, active: seq<nat>, rr: nat, i: nat)
    requires UniqueIds(warps) && forall p :: 0 <= p < |active| ==> WaitsAs(warps, active[p])
    ensures ScanActive(warps, active, rr, i).None?
    decreases |active| - i
  {
    hide WaitsAs, UniqueIds, ScanId;
    if i < |active| {
      WaiterStays(warps, active[(rr + i) % |active|]);
      NobodyFound(warps, active, rr, i + 1);
    }
  }

  lemma CloggedTick(k: Code, s: SmVal, m: MemVal)
    requires Clogged(s)
    ensures Tick(k, s, m) == Ok(Ticked(s.(cycles := s.cycles + 1), m)) && Clogged(s.(cycles := s.cycles + 1))
  {
    hide WaitsAs, UniqueIds, Issue, Keep, ScanActive;
    assert TickStalls(s.warps, s.cycles) == s.warps;
    AllStay(s.warps, s.sched.active);
    NobodyFound(s.warps, s.sched.active, s.sched.rr, 0);
    var i :| 0 <= i < |s.warps| && IsReady(s.warps[i]);
    assert s.warps[i].state != Completed;
  }

  /** A clogged SM never issues again, though a warp stays ready throughout. */
  lemma {:induction false} CloggedForever(k: Code, s: SmVal, m: MemVal, n: nat)
    requires Clogged(s)
    ensures Ticks(k, s, m, n).Ok?
    ensures var t := Ticks(k, s, m, n).value;
            t.sm == s.(cycles := s.cycles + n) && t.mem == m && !IsCompleted(t.sm.warps)
  {
    hide Clogged, Tick, IsCompleted;
    CloggedRuns(s);
    if n > 0 {
      CloggedForever(k, s, m, n - 1);
      StillClogged(s, n - 1);
      CloggedTick(k, s.(cycles := s.cycles + (n - 1)), m);
    }
  }

  lemma CloggedRuns(s: SmVal)
    requires Clogged(s)
    ensures !IsCompleted(s.warps)
  {
    var i :| 0 <= i < |s.warps| && IsReady(s.warps[i]);
    assert s.warps[i].state != Completed;
  }

  lemma StillClogged(s: SmVal, n: nat)
    requires Clogged(s)
    ensures Clogged(s.(cycles := s.cycles + n))
  {
  }
}
