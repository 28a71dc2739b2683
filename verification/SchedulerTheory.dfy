/** Bounded waiting under round-robin and priority scheduling, and the two-level scheduler's active set. */
module SchedulerTheory {
  import opened Common
  import opened Sequences
  import opened Cyclic
  import opened WarpModel
  import opened SchedulingModel

  /** What a scheduler chooses over a sequence of calls, each on the warps as they are by then. */
  function Choices(s: SchedVal, calls: seq<seq<WarpVal>>): seq<Option<nat>>
    decreases |calls|
  {
    if calls == [] then []
    else
      var c := Select(s, calls[0]);
      [c.warp] + Choices(c.sched, calls[1..])
  }

  /** `n` warps, of which `x` is ready, at every call. */
  ghost predicate AlwaysReady(calls: seq<seq<WarpVal>>, n: nat, x: nat) {
    x < n && forall i :: 0 <= i < |calls| ==> |calls[i]| == n && IsReady(calls[i][x])
  }

  /** The first ready warp is no farther round the ring than any ready warp. */
  lemma CyclicFirst(warps: seq<WarpVal>, next: nat, i: nat, d: nat) returns (f: nat)
    requires i <= d < |warps| && IsReady(warps[(next + d) % |warps|])
    ensures i <= f <= d && ScanCyclic(warps, next, i) == Some((next + f) % |warps|)
    decreases d - i
  {
    if i == d || IsReady(warps[(next + i) % |warps|]) {
      f := i;
    } else {
      f := CyclicFirst(warps, next, i + 1, d);
    }
  }

  /** A ready warp at distance d is selected within d + 1 calls. */
  lemma {:induction false} RoundRobinWithin(next: nat, calls: seq<seq<WarpVal>>, n: nat, x: nat, d: nat)
    returns (i: nat)
    requires AlwaysReady(calls, n, x) && AtDistance(next, n, x, d) && d < |calls|
    ensures i <= d && i < |Choices(RoundRobin(next), calls)| && Choices(RoundRobin(next), calls)[i] == Some(x)
    decreases d
  {
    var f := CyclicFirst(calls[0], next, 0, d);
    if f == d {
      i := 0;
    } else {
      var next' := ((next + f) % n + 1) % n;
      Closer(next, n, x, d, f);
      assert Select(RoundRobin(next), calls[0]).sched == RoundRobin(next');
      assert AlwaysReady(calls[1..], n, x);
      var i' := RoundRobinWithin(next', calls[1..], n, x, d - f - 1);
      i := i' + 1;
    }
  }

  /** Bounded waiting: over a fixed list of n warps, one that is ready at every call is selected within n calls. */
  lemma RoundRobinBounded(next: nat, calls: seq<seq<WarpVal>>, n: nat, x: nat)
    requires AlwaysReady(calls, n, x) && |calls| >= n
    ensures exists i ::
              0 <= i < n && i < |Choices(RoundRobin(next), calls)| && Choices(RoundRobin(next), calls)[i] == Some(x)
  {
    var d := CyclicCovers(n, next, x);
    var i := RoundRobinWithin(next, calls, n, x, d);
  }

  /** The place at distance c is the first of highest priority among the ready ones before distance i. */
  ghost predicate BestAt(warps: seq<WarpVal>, next: nat, i: nat, c: nat)
    requires i <= |warps|
  {
    && c < i && IsReady(warps[(next + c) % |warps|])
    && (forall j :: 0 <= j < i ==> NotAbove(warps, next, j, c))
    && (forall j :: 0 <= j < c ==> StrictlyBelow(warps, next, j, c))
  }

  predicate NotAbove(warps: seq<WarpVal>, next: nat, j: nat, c: nat)
    requires |warps| > 0
  {
    var a, b := warps[(next + j) % |warps|], warps[(next + c) % |warps|];
    IsReady(a) ==> a.priority <= b.priority
  }

  predicate StrictlyBelow(warps: seq<WarpVal>, next: nat, j: nat, c: nat)
    requires |warps| > 0
  {
    var a, b := warps[(next + j) % |warps|], warps[(next + c) % |warps|];
    IsReady(a) ==> a.priority < b.priority
  }

  lemma {:induction false} PriorityScan(warps: seq<WarpVal>, next: nat, i: nat, c: nat) returns (c': nat)
    requires i <= |warps| && BestAt(warps, next, i, c)
    ensures BestAt(warps, next, |warps|, c')
    ensures var idx := (next + c) % |warps|;
            ScanPriority(warps, next, i, warps[idx].priority, Some(idx)) == Some((next + c') % |warps|)
    decreases |warps| - i
  {
    if i == |warps| {
      c' := c;
    } else {
      var w, best := warps[(next + i) % |warps|], warps[(next + c) % |warps|];
      if IsReady(w) && w.priority > best.priority {
        forall j | 0 <= j < i
          ensures StrictlyBelow(warps, next, j, i) && NotAbove(warps, next, j, i)
        {
          assert NotAbove(warps, next, j, c);
        }
        assert NotAbove(warps, next, i, i);
        c' := PriorityScan(warps, next, i + 1, i);
      } else {
        c' := PriorityScan(warps, next, i + 1, c);
      }
    }
  }

  /** Before any ready warp above the lowest priority is seen. */
  lemma {:induction false} PriorityStart(warps: seq<WarpVal>, next: nat, i: nat, d: nat) returns (c: nat)
    requires i <= d < |warps|
    requires var x := warps[(next + d) % |warps|]; IsReady(x) && x.priority > LOWEST_PRIORITY
    requires forall j :: 0 <= j < i ==> Lowest(warps, next, j)
    ensures BestAt(warps, next, |warps|, c)
    ensures ScanPriority(warps, next, i, LOWEST_PRIORITY, None) == Some((next + c) % |warps|)
    decreases d - i
  {
    var w := warps[(next + i) % |warps|];
    if IsReady(w) && w.priority > LOWEST_PRIORITY {
      forall j | 0 <= j < i
        ensures StrictlyBelow(warps, next, j, i) && NotAbove(warps, next, j, i)
      {
        assert Lowest(warps, next, j);
      }
      assert NotAbove(warps, next, i, i);
      c := PriorityScan(warps, next, i + 1, i);
    } else {
      assert Lowest(warps, next, i);
      c := PriorityStart(warps, next, i + 1, d);
    }
  }

  predicate Lowest(warps: seq<WarpVal>, next: nat, j: nat)
    requires |warps| > 0
  {
    var a := warps[(next + j) % |warps|];
    IsReady(a) ==> a.priority <= LOWEST_PRIORITY
  }

  /** `x` is ready, above the lowest priority, and no ready warp is above it, at every call. */
  ghost predicate AlwaysOnTop(calls: seq<seq<WarpVal>>, n: nat, x: nat) {
    AlwaysReady(calls, n, x) && forall i :: 0 <= i < |calls| ==> OnTop(calls[i], x)
  }

  ghost predicate OnTop(warps: seq<WarpVal>, x: nat) {
    && x < |warps| && warps[x].priority > LOWEST_PRIORITY
    && forall j :: 0 <= j < |warps| && IsReady(warps[j]) ==> warps[j].priority <= warps[x].priority
  }

  lemma PriorityPicks(warps: seq<WarpVal>, next: nat, x: nat, d: nat) returns (c: nat)
    requires AtDistance(next, |warps|, x, d) && IsReady(warps[x]) && OnTop(warps, x)
    ensures c <= d && Select(Priority(next), warps) ==
                      Choice(Some((next + c) % |warps|), Priority(((next + c) % |warps| + 1) % |warps|))
  {
    c := PriorityStart(warps, next, 0, d);
    assert !StrictlyBelow(warps, next, d, c);
  }

  lemma {:induction false} PriorityWithin(next: nat, calls: seq<seq<WarpVal>>, n: nat, x: nat, d: nat) returns (i: nat)
    requires AlwaysOnTop(calls, n, x) && AtDistance(next, n, x, d) && d < |calls|
    ensures i <= d && i < |Choices(Priority(next), calls)| && Choices(Priority(next), calls)[i] == Some(x)
    decreases d
  {
    assert OnTop(calls[0], x);
    var c := PriorityPicks(calls[0], next, x, d);
    if c == d {
      i := 0;
    } else {
      Closer(next, n, x, d, c);
      assert AlwaysOnTop(calls[1..], n, x) by {
        assert forall i :: 0 <= i < |calls[1..]| ==> calls[1..][i] == calls[i + 1];
      }
      var i' := PriorityWithin(((next + c) % n + 1) % n, calls[1..], n, x, d - c - 1);
      i := i' + 1;
    }
  }

  /** Bounded waiting under Priority, for a warp that is always ready and never outranked. */
  lemma PriorityBounded(next: nat, calls: seq<seq<WarpVal>>, n: nat, x: nat)
    requires AlwaysOnTop(calls, n, x) && |calls| >= n
    ensures exists i ::
              0 <= i < n && i < |Choices(Priority(next), calls)| && Choices(Priority(next), calls)[i] == Some(x)
  {
    var d := CyclicCovers(n, next, x);
    var i := PriorityWithin(next, calls, n, x, d);
  }

  // ---------------------------------------------------------------------------------------------
  // The two-level scheduler's active set

  ghost predicate UniqueIds(warps: seq<WarpVal>) {
    forall i, j :: 0 <= i < j < |warps| ==> warps[i].id != warps[j].id
  }

  ghost predicate Sorted(s: seq<Candidate>) { forall i, j :: 0 <= i < j < |s| ==> Before(s[i], s[j]) }

  /** The candidate a ready warp outside `active` gives rise to. */
  predicate Offers(w: WarpVal, active: seq<nat>, c: Candidate) {
    IsReady(w) && w.id !in active && c == Candidate(w.readySince, w.id)
  }

  lemma {:induction false} InsertCandidateFacts(s: seq<Candidate>, c: Candidate)
    requires Sorted(s) && forall x :: x in s ==> x.id != c.id
    ensures Sorted(InsertCandidate(s, c))
    ensures forall x :: x in InsertCandidate(s, c) <==> x == c || x in s
  {
    if s != [] && !Before(c, s[0]) {
      assert s == [s[0]] + s[1..];
      InsertCandidateFacts(s[1..], c);
      var r := InsertCandidate(s[1..], c);
      assert forall i :: 0 <= i < |r| ==> r[i] in r;
      assert forall x :: x in r ==> Before(s[0], x);
    }
  }

  /** The candidates are the ready warps outside the set, oldest first. */
  lemma {:induction false} CandidatesFacts(warps: seq<WarpVal>, active: seq<nat>, n: nat)
    requires n <= |warps| && UniqueIds(warps)
    ensures Sorted(Candidates(warps, active, n))
    ensures forall c :: c in Candidates(warps, active, n) <==> exists i :: 0 <= i < n && Offers(warps[i], active, c)
  {
    if n > 0 {
      CandidatesFacts(warps, active, n - 1);
      var rest, w := Candidates(warps, active, n - 1), warps[n - 1];
      forall x | x in rest
        ensures x.id != w.id
      {
        var i :| 0 <= i < n - 1 && Offers(warps[i], active, x);
      }
      if IsReady(w) && w.id !in active {
        InsertCandidateFacts(rest, Candidate(w.readySince, w.id));
      }
      forall c | c in Candidates(warps, active, n)
        ensures exists i :: 0 <= i < n && Offers(warps[i], active, c)
      {
        if c in rest {
          var i :| 0 <= i < n - 1 && Offers(warps[i], active, c);
        } else {
          assert Offers(w, active, c);
        }
      }
      forall c | exists i :: 0 <= i < n && Offers(warps[i], active, c)
        ensures c in Candidates(warps, active, n)
      {
        var i :| 0 <= i < n && Offers(warps[i], active, c);
        assert i < n - 1 ==> c in rest;
      }
    }
  }

  function Ids(s: seq<Candidate>): (r: seq<nat>)
    ensures |r| == |s|
  {
    seq(|s|, i requires 0 <= i < |s| => s[i].id)
  }

  /** How many candidates are admitted. */
  function Room(active: seq<nat>, candidates: seq<Candidate>, capacity: nat): (r: nat)
    ensures r <= |candidates|
  {
    if |active| >= capacity then 0 else Min(|candidates|, capacity - |active|)
  }

  lemma {:induction false} FillFacts(active: seq<nat>, candidates: seq<Candidate>, capacity: nat)
    ensures Fill(active, candidates, capacity) == active + Ids(candidates[..Room(active, candidates, capacity)])
    decreases |candidates|
  {
    var room := Room(active, candidates, capacity);
    if room == 0 {
      assert Ids(candidates[..0]) == [];
      assert active + [] == active;
    } else {
      FillFacts(active + [candidates[0].id], candidates[1..], capacity);
      assert Ids(candidates[..room]) == [candidates[0].id] + Ids(candidates[1..][..room - 1]);
    }
  }

  lemma KeepFacts(warps: seq<WarpVal>, active: seq<nat>)
    ensures forall id :: id in Keep(warps, active) <==> id in active && Stays(warps, id)
    ensures NoDup(active) ==> NoDup(Keep(warps, active))
    ensures |Keep(warps, active)| <= |active|
  {
    if active != [] {
      var init, last := active[..|active| - 1], active[|active| - 1];
      KeepFacts(warps, init);
      assert active == init + [last];
    }
  }

  /** A ready warp with unique id is what its id finds. */
  lemma FindsIt(warps: seq<WarpVal>, i: nat)
    requires UniqueIds(warps) && i < |warps|
    ensures FindId(warps, warps[i].id, 0) == i
  {
  }

  /** The members are distinct, fit the capacity, are present and have not completed. */
  ghost predicate GoodActive(warps: seq<WarpVal>, active: seq<nat>, capacity: nat) {
    NoDup(active) && |active| <= capacity && forall id :: id in active ==> Stays(warps, id)
  }

  /** The warp at `j` is ready and not a member. */
  predicate LeftOut(warps: seq<WarpVal>, active: seq<nat>, j: nat)
    requires j < |warps|
  {
    IsReady(warps[j]) && warps[j].id !in active
  }

  /** The warp at `i` is a member that was not one before. */
  predicate NewMember(warps: seq<WarpVal>, before: seq<nat>, after: seq<nat>, i: nat)
    requires i < |warps|
  {
    warps[i].id in after && warps[i].id !in before
  }

  /** Every new member is older than every ready warp left out. */
  ghost predicate OldestFirstIn(warps: seq<WarpVal>, before: seq<nat>, after: seq<nat>) {
    forall i, j ::
      0 <= i < |warps| && 0 <= j < |warps| && NewMember(warps, before, after, i) && LeftOut(warps, after, j) ==>
      Older(warps[i], warps[j])
  }

  /** Updating the active set: from any duplicate-free set within capacity to a good one that keeps every member
      still running, and admits no warp while an older ready one stays outside. */
  lemma UpdateActiveFacts(warps: seq<WarpVal>, active: seq<nat>, capacity: nat)
    requires UniqueIds(warps) && NoDup(active) && |active| <= capacity
    ensures var active' := UpdateActive(warps, active, capacity);
            && GoodActive(warps, active', capacity)
            && (forall id :: id in active && Stays(warps, id) ==> id in active')
            && OldestFirstIn(warps, active, active')
            && (|active'| < capacity ==> forall j :: 0 <= j < |warps| ==> !LeftOut(warps, active', j))
  {
    var kept := Keep(warps, active);
    KeepFacts(warps, active);
    if |kept| < capacity {
      var cands := Candidates(warps, kept, |warps|);
      var room := Room(kept, cands, capacity);
      CandidatesFacts(warps, kept, |warps|);
      FillFacts(kept, cands, capacity);
      var active' := kept + Ids(cands[..room]);
      AdmittedGood(warps, kept, cands, room);
      AdmittedOldest(warps, kept, cands, room);
      forall i, j | 0 <= i < |warps| && 0 <= j < |warps| && NewMember(warps, active, active', i) &&
        LeftOut(warps, active', j)
        ensures Older(warps[i], warps[j])
      {
        assert NewMember(warps, kept, active', i);
      }
    } else {
      assert forall id :: id in active ==> id in kept by {
        AllKept(warps, active);
      }
    }
  }

  lemma AllKept(warps: seq<WarpVal>, active: seq<nat>)
    requires |Keep(warps, active)| == |active|
    ensures forall id :: id in active ==> id in Keep(warps, active)
  {
    KeepLength(warps, active);
  }

  lemma KeepLength(warps: seq<WarpVal>, active: seq<nat>)
    ensures |Keep(warps, active)| <= |active|
    ensures |Keep(warps, active)| == |active| ==> Keep(warps, active) == active
  {
    if active != [] {
      KeepLength(warps, active[..|active| - 1]);
    }
  }

  lemma AdmittedGood(warps: seq<WarpVal>, kept: seq<nat>, cands: seq<Candidate>, room: nat)
    requires UniqueIds(warps) && NoDup(kept) && (forall id :: id in kept ==> Stays(warps, id))
    requires Sorted(cands) && room <= |cands|
    requires forall c :: c in cands <==> exists i :: 0 <= i < |warps| && Offers(warps[i], kept, c)
    ensures NoDup(kept + Ids(cands[..room]))
    ensures forall id :: id in kept + Ids(cands[..room]) ==> Stays(warps, id)
  {
    var more := Ids(cands[..room]);
    forall p | 0 <= p < room
      ensures more[p] !in kept && Stays(warps, more[p])
    {
      assert cands[p] in cands;
      var i :| 0 <= i < |warps| && Offers(warps[i], kept, cands[p]);
      FindsIt(warps, i);
    }
    forall p, q | 0 <= p < q < room
      ensures more[p] != more[q]
    {
      assert cands[p] in cands && cands[q] in cands && Before(cands[p], cands[q]);
      var i :| 0 <= i < |warps| && Offers(warps[i], kept, cands[p]);
      var j :| 0 <= j < |warps| && Offers(warps[j], kept, cands[q]);
    }
  }

  lemma NotAdmitted(kept: seq<nat>, cands: seq<Candidate>, room: nat, q: nat)
    requires q < |cands| && room <= |cands|
    ensures q < room ==> cands[q].id in kept + Ids(cands[..room])
  {
    if q < room {
      assert Ids(cands[..room])[q] == cands[q].id;
    }
  }

  lemma LeftOutLater(warps: seq<WarpVal>, kept: seq<nat>, cands: seq<Candidate>, room: nat, j: nat) returns (q: nat)
    requires room <= |cands| && j < |warps| && LeftOut(warps, kept + Ids(cands[..room]), j)
    requires forall c :: c in cands <==> exists i :: 0 <= i < |warps| && Offers(warps[i], kept, c)
    ensures room <= q < |cands| && cands[q] == Candidate(warps[j].readySince, warps[j].id)
  {
    var active' := kept + Ids(cands[..room]);
    assert Offers(warps[j], kept, Candidate(warps[j].readySince, warps[j].id));
    assert Candidate(warps[j].readySince, warps[j].id) in cands;
    q :| 0 <= q < |cands| && cands[q] == Candidate(warps[j].readySince, warps[j].id);
    NotAdmitted(kept, cands, room, q);
  }

  lemma AdmittedOldest(warps: seq<WarpVal>, kept: seq<nat>, cands: seq<Candidate>, room: nat)
    requires UniqueIds(warps) && Sorted(cands) && room <= |cands|
    requires forall c :: c in cands <==> exists i :: 0 <= i < |warps| && Offers(warps[i], kept, c)
    ensures OldestFirstIn(warps, kept, kept + Ids(cands[..room]))
    ensures room == |cands| ==> forall j :: 0 <= j < |warps| ==> !LeftOut(warps, kept + Ids(cands[..room]), j)
  {
    var more := Ids(cands[..room]);
    var active' := kept + more;
    forall j | 0 <= j < |warps| && LeftOut(warps, active', j)
      ensures room < |cands|
    {
      var q := LeftOutLater(warps, kept, cands, room, j);
    }
    forall i, j | 0 <= i < |warps| && 0 <= j < |warps| && NewMember(warps, kept, active', i) &&
      LeftOut(warps, active', j)
      ensures Older(warps[i], warps[j])
    {
      var p :| 0 <= p < room && more[p] == warps[i].id;
      assert cands[p] in cands;
      var i' :| 0 <= i' < |warps| && Offers(warps[i'], kept, cands[p]);
      var q := LeftOutLater(warps, kept, cands, room, j);
      assert Before(cands[p], cands[q]);
    }
  }

  /** One call keeps the set good, selects only members, and selects one whenever one is ready. */
  lemma TwoLevelSelects(warps: seq<WarpVal>, active: seq<nat>, capacity: nat, rr: nat)
    requires UniqueIds(warps) && NoDup(active) && |active| <= capacity
    ensures var c := Select(TwoLevel(capacity, active, rr), warps);
            && c.sched.TwoLevel? && c.sched.capacity == capacity
            && GoodActive(warps, c.sched.active, capacity)
            && (c.warp.Some? ==> warps[c.warp.value].id in c.sched.active)
            && (c.warp.Some? <==> exists i :: 0 <= i < |warps| && IsReady(warps[i]) && warps[i].id in c.sched.active)
  {
    UpdateActiveFacts(warps, active, capacity);
    var active' := UpdateActive(warps, active, capacity);
    if i :| 0 <= i < |warps| && IsReady(warps[i]) && warps[i].id in active' {
      var p :| 0 <= p < |active'| && active'[p] == warps[i].id;
      var d := CyclicCovers(|active'|, rr, p);
      ActiveFinds(warps, active', rr, 0, d, i);
    }
  }

  lemma IdFinds(warps: seq<WarpVal>, id: nat, from: nat, i: nat)
    requires from <= i < |warps| && IsReady(warps[i]) && warps[i].id == id
    ensures ScanId(warps, id, from).Some?
    decreases i - from
  {
    if from < i { IdFinds(warps, id, from + 1, i); }
  }

  lemma ActiveFinds(warps: seq<WarpVal>, active: seq<nat>, rr: nat, i: nat, d: nat, w: nat)
    requires i <= d < |active| && w < |warps| && IsReady(warps[w]) && active[(rr + d) % |active|] == warps[w].id
    ensures ScanActive(warps, active, rr, i).Some?
    decreases d - i
  {
    IdFinds(warps, warps[w].id, 0, w);
    if i < d { ActiveFinds(warps, active, rr, i + 1, d, w); }
  }

  // ---------------------------------------------------------------------------------------------
  // Two-level scheduling over a sequence of calls

  /** The scheduler's state after a sequence of calls. */
  function SchedAfter(s: SchedVal, calls: seq<seq<WarpVal>>): SchedVal
    decreases |calls|
  {
    if calls == [] then s
    else Select(SchedAfter(s, calls[..|calls| - 1]), calls[|calls| - 1]).sched
  }

  lemma {:induction false} ChoicesAre(s: SchedVal, calls: seq<seq<WarpVal>>, i: nat)
    requires i < |calls|
    ensures |Choices(s, calls)| == |calls| && Choices(s, calls)[i] == Select(SchedAfter(s, calls[..i]), calls[i]).warp
    decreases |calls|
  {
    hide Select;
    var s1 := Select(s, calls[0]).sched;
    if i > 0 {
      ChoicesAre(s1, calls[1..], i - 1);
      FirstCall(s, calls[..i]);
      assert calls[..i][1..] == calls[1..][..i - 1];
    } else if |calls| > 1 {
      ChoicesAre(s1, calls[1..], 0);
    }
  }

  lemma {:induction false} FirstCall(s: SchedVal, calls: seq<seq<WarpVal>>)
    requires calls != []
    ensures SchedAfter(s, calls) == SchedAfter(Select(s, calls[0]).sched, calls[1..])
    decreases |calls|
  {
    hide Select;
    var init := calls[..|calls| - 1];
    if init != [] {
      FirstCall(s, init);
      assert init[1..] == calls[1..][..|calls[1..]| - 1];
    }
  }

  lemma {:induction false} TwoLevelReaches(s: SchedVal, calls: seq<seq<WarpVal>>)
    requires s.TwoLevel? && NoDup(s.active) && |s.active| <= s.capacity
    requires forall i :: 0 <= i < |calls| ==> UniqueIds(calls[i])
    ensures var s' := SchedAfter(s, calls);
            s'.TwoLevel? && s'.capacity == s.capacity && NoDup(s'.active) && |s'.active| <= s'.capacity
    decreases |calls|
  {
    hide Select, UniqueIds;
    if calls != [] {
      var init, last := calls[..|calls| - 1], calls[|calls| - 1];
      TwoLevelReaches(s, init);
      var before := SchedAfter(s, init);
      TwoLevelSelects(last, before.active, before.capacity, before.rr);
    }
  }

  /** At the i-th of any sequence of calls, each on warps of distinct ids: the set is duplicate-free, within its size,
      and all its members are present and uncompleted; a member left only because its warp completed or left; new
      members are older than every ready warp left outside; and only a member is selected. */
  lemma TwoLevelOverCalls(s: SchedVal, calls: seq<seq<WarpVal>>, i: nat)
    requires s.TwoLevel? && NoDup(s.active) && |s.active| <= s.capacity && i < |calls|
    requires forall j :: 0 <= j < |calls| ==> UniqueIds(calls[j])
    ensures var before, after := SchedAfter(s, calls[..i]), SchedAfter(s, calls[..i + 1]);
            && before.TwoLevel? && after.TwoLevel?
            && GoodActive(calls[i], after.active, s.capacity)
            && (forall id :: id in before.active && Stays(calls[i], id) ==> id in after.active)
            && OldestFirstIn(calls[i], before.active, after.active)
            && |Choices(s, calls)| == |calls|
            && match Choices(s, calls)[i]
               case Some(w) => w < |calls[i]| && IsReady(calls[i][w]) && calls[i][w].id in after.active
               case None => forall w :: 0 <= w < |calls[i]| && IsReady(calls[i][w]) ==> calls[i][w].id !in after.active
  {
    hide UniqueIds, GoodActive, OldestFirstIn, Stays, UpdateActive;
    TwoLevelReaches(s, calls[..i]);
    var before := SchedAfter(s, calls[..i]);
    assert calls[..i + 1][..i] == calls[..i];
    ChoicesAre(s, calls, i);
    TwoLevelSelects(calls[i], before.active, before.capacity, before.rr);
    UpdateActiveFacts(calls[i], before.active, before.capacity);
  }
}
