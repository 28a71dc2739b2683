/** Which warp every scheduler chooses, told by readiness, age, priority and place. */
module SchedulerChoices {
  import opened Common
  import opened Sequences
  import opened Cyclic
  import opened WarpModel
  import opened SchedulingModel
  import opened SchedulerTheory
  import opened TwoLevelIdling
  import opened Schedulers

  /** The warp at `i` became ready no later than the one at `j`, and of two that became ready together it has the
      smaller id or, with the same id, the earlier place. */
  predicate NoYounger(warps: seq<WarpVal>, i: nat, j: nat)
    requires i < |warps| && j < |warps|
  {
    var a, b := warps[i], warps[j];
    || a.readySince < b.readySince
    || (a.readySince == b.readySince && (a.id < b.id || (a.id == b.id && i <= j)))
  }

  /** The warp at `c` is ready, and no ready warp is older. */
  ghost predicate Oldest(warps: seq<WarpVal>, c: nat) {
    && c < |warps| && warps[c].state == Ready
    && forall j :: 0 <= j < |warps| && warps[j].state == Ready ==> NoYounger(warps, c, j)
  }

  lemma {:induction false} ScanOldestFinds(warps: seq<WarpVal>, i: nat, chosen: Option<nat>)
    requires i <= |warps| && match chosen
                             case None => forall j :: 0 <= j < i ==> !IsReady(warps[j])
                             case Some(c) => c < i && Oldest(warps[..i], c)
    ensures match ScanOldest(warps, i, chosen)
            case None => forall j :: 0 <= j < |warps| ==> !IsReady(warps[j])
            case Some(c) => Oldest(warps, c)
    decreases |warps| - i
  {
    if i < |warps| {
      var next := if IsReady(warps[i]) &&
        (chosen.None? || Older(warps[i], warps[chosen.value])) then Some(i) else chosen;
      assert next.Some? ==> Oldest(warps[..i + 1], next.value) by {
        if next.Some? { OneMoreOldest(warps, i, chosen, next.value); }
      }
      ScanOldestFinds(warps, i + 1, next);
    } else {
      assert warps[..i] == warps;
    }
  }

  lemma OneMoreOldest(warps: seq<WarpVal>, i: nat, chosen: Option<nat>, c: nat)
    requires i < |warps| && match chosen
                            case None => forall j :: 0 <= j < i ==> !IsReady(warps[j])
                            case Some(b) => b < i && Oldest(warps[..i], b)
    requires if IsReady(warps[i]) &&
             (chosen.None? || Older(warps[i], warps[chosen.value])) then c == i else chosen == Some(c)
    ensures Oldest(warps[..i + 1], c)
  {
    var upTo := warps[..i + 1];
    forall j | 0 <= j < |upTo| && upTo[j].state == Ready
      ensures NoYounger(upTo, c, j)
    {
      if j < i {
        assert warps[..i][j] == warps[j];
        if chosen.Some? { assert NoYounger(warps[..i], chosen.value, j); }
      }
    }
  }

  /** Oldest-first chooses the oldest ready warp, and nobody only if nobody is ready. */
  lemma OldestFirstChooses(warps: seq<WarpVal>)
    ensures match Select(OldestFirst, warps).warp
            case Some(c) => Oldest(warps, c)
            case None => forall j :: 0 <= j < |warps| ==> warps[j].state != Ready
  {
    ScanOldestFinds(warps, 0, None);
  }

  lemma {:induction false} ScanIdFinds(warps: seq<WarpVal>, id: nat, i: nat)
    ensures match ScanId(warps, id, i)
            case Some(c) => i <= c < |warps| && warps[c].id == id && warps[c].state == Ready
            case None => forall j :: i <= j < |warps| ==> !(warps[j].id == id && warps[j].state == Ready)
    decreases |warps| - i
  {
    if i < |warps| { ScanIdFinds(warps, id, i + 1); }
  }

  /** Some ready warp has this id. */
  ghost predicate ReadyId(warps: seq<WarpVal>, id: nat) {
    exists j :: 0 <= j < |warps| && warps[j].id == id && warps[j].state == Ready
  }

  /** Greedy-then-oldest: while a warp with the id issued last is ready it is chosen again; otherwise the oldest is; the
      id chosen, if any, is what is remembered. */
  lemma GtoChooses(warps: seq<WarpVal>, last: Option<nat>)
    ensures var c := Select(Gto(last), warps);
            match c.warp
            case None => c.sched == Gto(None) && forall j :: 0 <= j < |warps| ==> warps[j].state != Ready
            case Some(i) =>
              && i < |warps| && warps[i].state == Ready && c.sched == Gto(Some(warps[i].id))
              && if last.Some? && ReadyId(warps, last.value) then warps[i].id == last.value else Oldest(warps, i)
  {
    ScanOldestFinds(warps, 0, None);
    if last.Some? {
      ScanIdFinds(warps, last.value, 0);
    }
  }

  /** Over any calls: a warp that greedy-then-oldest has chosen is chosen at every call as long as it stays ready, if no
      other has its id. */
  lemma {:induction false} GtoStays(calls: seq<seq<WarpVal>>, x: nat, id: nat)
    requires forall i :: 0 <= i < |calls| ==>
               x < |calls[i]| && calls[i][x].id == id && calls[i][x].state == Ready && UniqueIds(calls[i])
    ensures |Choices(Gto(Some(id)), calls)| == |calls|
    ensures forall i :: 0 <= i < |calls| ==> Choices(Gto(Some(id)), calls)[i] == Some(x)
    decreases |calls|
  {
    if calls != [] {
      hide Select, UniqueIds;
      var warps := calls[0];
      GtoChooses(warps, Some(id));
      assert ReadyId(warps, id);
      var c := Select(Gto(Some(id)), warps);
      assert c.warp == Some(x) by {
        assert c.warp.Some?;
        OnlyOne(warps, c.warp.value, x);
      }
      GtoStays(calls[1..], x, id);
    }
  }

  lemma OnlyOne(warps: seq<WarpVal>, i: nat, j: nat)
    requires UniqueIds(warps) && i < |warps| && j < |warps| && warps[i].id == warps[j].id
    ensures i == j
  {
  }

  /** Greedy chooses the first ready warp of the list. */
  lemma GreedyChooses(warps: seq<WarpVal>)
    ensures match Select(Greedy, warps).warp
            case Some(c) => c < |warps| && warps[c].state == Ready && forall j :: 0 <= j < c ==> warps[j].state != Ready
            case None => forall j :: 0 <= j < |warps| ==> warps[j].state != Ready
  {
    FirstReady(warps, 0);
  }

  lemma FirstReady(warps: seq<WarpVal>, i: nat)
    ensures match ScanFirst(warps, i)
            case Some(c) => i <= c < |warps| && IsReady(warps[c]) && forall j :: i <= j < c ==> !IsReady(warps[j])
            case None => forall j :: i <= j < |warps| ==> !IsReady(warps[j])
    decreases |warps| - i
  {
  }

  /** Round-robin chooses the ready warp nearest behind its index, and the next scan starts just behind that one. */
  lemma RoundRobinChooses(warps: seq<WarpVal>, next: nat, x: nat, d: nat) returns (f: nat)
    requires AtDistance(next, |warps|, x, d) && warps[x].state == Ready
    ensures f <= d && AtDistance(next, |warps|, (next + f) % |warps|, f) && warps[(next + f) % |warps|].state == Ready
    ensures Select(RoundRobin(next), warps) ==
            Choice(Some((next + f) % |warps|), RoundRobin(((next + f) % |warps| + 1) % |warps|))
  {
    f := CyclicFirst(warps, next, 0, d);
  }

  /** The priority policy never selects a warp of the lowest priority. */
  lemma {:induction false} PriorityIgnoresLowest(warps: seq<WarpVal>, next: nat, i: nat)
    requires forall j :: 0 <= j < |warps| && warps[j].state == Ready ==> warps[j].priority <= LOWEST_PRIORITY
    ensures ScanPriority(warps, next, i, LOWEST_PRIORITY, None).None?
    decreases |warps| - i
  {
    if i < |warps| { PriorityIgnoresLowest(warps, next, i + 1); }
  }

  lemma PriorityIdles(warps: seq<WarpVal>, next: nat)
    requires forall j :: 0 <= j < |warps| && warps[j].state == Ready ==> warps[j].priority <= LOWEST_PRIORITY
    ensures Select(Priority(next), warps) == Choice(None, Priority(next))
  {
    PriorityIgnoresLowest(warps, next, 0);
  }

  // ---------------------------------------------------------------------------------------------
  // Turns inside the two-level scheduler's active set

  /** The updated set is `active` at every call, and a warp with id `x` is ready. */
  ghost predicate Settled(calls: seq<seq<WarpVal>>, capacity: nat, active: seq<nat>, x: nat) {
    forall i :: 0 <= i < |calls| ==> UpdateActive(calls[i], active, capacity) == active && ReadyId(calls[i], x)
  }

  /** The choice at call `i` has id `x`. */
  predicate ChosenId(s: SchedVal, calls: seq<seq<WarpVal>>, i: nat, x: nat) {
    && i < |calls| && i < |Choices(s, calls)| && Choices(s, calls)[i].Some?
    && Choices(s, calls)[i].value < |calls[i]| && calls[i][Choices(s, calls)[i].value].id == x
  }

  /** The member found is no farther round the set than a member with a ready warp. */
  lemma {:induction false} ActiveFirst(warps: seq<WarpVal>, active: seq<nat>, rr: nat, i: nat, d: nat)
    returns (f: nat, w: nat)
    requires i <= d < |active| && ReadyId(warps, active[(rr + d) % |active|])
    ensures i <= f <= d && ScanActive(warps, active, rr, i) == Some((f, w))
    ensures w < |warps| && warps[w].id == active[(rr + f) % |active|] && warps[w].state == Ready
    decreases d - i
  {
    var id := active[(rr + i) % |active|];
    ScanIdFinds(warps, id, 0);
    if ScanId(warps, id, 0).Some? {
      f, w := i, ScanId(warps, id, 0).value;
    } else {
      f, w := ActiveFirst(warps, active, rr, i + 1, d);
    }
  }

  /** A member with a ready warp, `d` places behind the index, is selected within d + 1 calls. */
  lemma {:induction false} TurnWithin(capacity: nat, active: seq<nat>, rr: nat, calls: seq<seq<WarpVal>>, p: nat,
                                      d: nat)
    returns (i: nat)
    requires p < |active| && Settled(calls, capacity, active, active[p])
    requires AtDistance(rr, |active|, p, d) && d < |calls|
    ensures i <= d && ChosenId(TwoLevel(capacity, active, rr), calls, i, active[p])
    decreases d
  {
    hide UpdateActive, ScanActive, ReadyId;
    var n, x := |active|, active[p];
    var f, w := ActiveFirst(calls[0], active, rr, 0, d);
    var s := TwoLevel(capacity, active, rr);
    assert Select(s, calls[0]) == Choice(Some(w), TwoLevel(capacity, active, (rr + f + 1) % n));
    if f == d {
      i := 0;
    } else {
      Closer(rr, n, p, d, f);
      ModAdd(rr + f, 1, n);
      assert Settled(calls[1..], capacity, active, x);
      var i' := TurnWithin(capacity, active, (rr + f + 1) % n, calls[1..], p, d - f - 1);
      i := i' + 1;
    }
  }

  /** Bounded waiting inside the active set: over calls in which the set stays the same n members, a member that has a
      ready warp at every call is selected within n calls. */
  lemma TwoLevelBounded(capacity: nat, active: seq<nat>, rr: nat, calls: seq<seq<WarpVal>>, x: nat)
    requires x in active && Settled(calls, capacity, active, x) && |calls| >= |active|
    ensures exists i :: 0 <= i < |active| && ChosenId(TwoLevel(capacity, active, rr), calls, i, x)
  {
    var p :| 0 <= p < |active| && active[p] == x;
    var d := CyclicCovers(|active|, rr, p);
    var i := TurnWithin(capacity, active, rr, calls, p, d);
  }

  lemma FirstTurn(capacity: nat, active: seq<nat>, rr: nat, warps: seq<WarpVal>) returns (w: nat)
    requires active != [] && UpdateActive(warps, active, capacity) == active && ReadyId(warps, active[rr % |active|])
    ensures Select(TwoLevel(capacity, active, rr), warps) ==
            Choice(Some(w), TwoLevel(capacity, active, (rr + 1) % |active|))
    ensures w < |warps| && warps[w].id == active[rr % |active|]
  {
    hide UpdateActive, ScanActive, ReadyId;
    var f;
    f, w := ActiveFirst(warps, active, rr, 0, 0);
  }

  lemma LaterChoice(s: SchedVal, s': SchedVal, calls: seq<seq<WarpVal>>, i: nat, x: nat)
    requires calls != [] && Select(s, calls[0]).sched == s' && ChosenId(s', calls[1..], i, x)
    ensures ChosenId(s, calls, i + 1, x)
  {
    hide Select;
  }

  lemma NextTurn(rr: nat, i: nat, n: nat)
    requires n > 0 && i > 0
    ensures ((rr + 1) % n + (i - 1)) % n == (rr + i) % n
  {
    ModAdd(rr + 1, i - 1, n);
    assert rr + 1 + (i - 1) == rr + i;
  }

  /** While all members have ready warps they take turns in the order of the set. */
  lemma {:induction false} TwoLevelRotates(capacity: nat, active: seq<nat>, rr: nat, calls: seq<seq<WarpVal>>, i: nat)
    requires active != [] && forall p :: 0 <= p < |active| ==> Settled(calls, capacity, active, active[p])
    requires i < |calls|
    ensures ChosenId(TwoLevel(capacity, active, rr), calls, i, active[(rr + i) % |active|])
    decreases i
  {
    hide Select, UpdateActive, ReadyId, ChosenId, Settled;
    var n := |active|;
    AtFirst(calls, capacity, active, active[rr % n]);
    var w := FirstTurn(capacity, active, rr, calls[0]);
    if i == 0 {
      ChosenFirst(TwoLevel(capacity, active, rr), calls, w);
    } else {
      forall p | 0 <= p < n
        ensures Settled(calls[1..], capacity, active, active[p])
      {
        SettledLater(calls, capacity, active, active[p]);
      }
      TwoLevelRotates(capacity, active, (rr + 1) % n, calls[1..], i - 1);
      NextTurn(rr, i, n);
      LaterChoice(TwoLevel(capacity, active, rr), TwoLevel(capacity, active, (rr + 1) % n), calls, i - 1,
        active[(rr + i) % n]);
    }
  }

  lemma AtFirst(calls: seq<seq<WarpVal>>, capacity: nat, active: seq<nat>, x: nat)
    requires calls != [] && Settled(calls, capacity, active, x)
    ensures UpdateActive(calls[0], active, capacity) == active && ReadyId(calls[0], x)
  {
  }

  lemma SettledLater(calls: seq<seq<WarpVal>>, capacity: nat, active: seq<nat>, x: nat)
    requires calls != [] && Settled(calls, capacity, active, x)
    ensures Settled(calls[1..], capacity, active, x)
  {
    hide UpdateActive, ReadyId;
  }

  lemma ChosenFirst(s: SchedVal, calls: seq<seq<WarpVal>>, w: nat)
    requires calls != [] && Select(s, calls[0]).warp == Some(w) && w < |calls[0]|
    ensures ChosenId(s, calls, 0, calls[0][w].id)
  {
    hide Select;
  }

  /** The set stays as it is when all its members stay and it is full or no ready warp is outside. */
  lemma SetStays(warps: seq<WarpVal>, active: seq<nat>, capacity: nat)
    requires forall id :: id in active ==> Stays(warps, id)
    requires |active| >= capacity || forall j :: 0 <= j < |warps| && warps[j].state == Ready ==> warps[j].id in active
    ensures UpdateActive(warps, active, capacity) == active
  {
    hide Stays;
    KeepsAll(warps, active);
    if |active| < capacity { NoCandidates(warps, active, |warps|); }
  }

  lemma {:induction false} NoCandidates(warps: seq<WarpVal>, active: seq<nat>, n: nat)
    requires n <= |warps| && forall j :: 0 <= j < n && warps[j].state == Ready ==> warps[j].id in active
    ensures Candidates(warps, active, n) == []
  {
    if n > 0 { NoCandidates(warps, active, n - 1); }
  }

  /** The order of the updated set: members that stay come first, in the order they had, and new ones after them,
      older ones before younger. */
  lemma ActiveOrder(warps: seq<WarpVal>, active: seq<nat>, capacity: nat)
    requires UniqueIds(warps) && NoDup(active) && |active| <= capacity
    ensures var after, kept := UpdateActive(warps, active, capacity), Keep(warps, active);
            && kept <= after && (forall id :: id in kept <==> id in active && Stays(warps, id))
            && (forall p, q :: 0 <= p < q < |kept| ==> InOrder(active, kept[p], kept[q]))
            && (forall p, q :: |kept| <= p < q < |after| ==> AgeOrdered(warps, after[p], after[q]))
  {
    hide UniqueIds, Stays, InOrder, AgeOrdered;
    var kept := Keep(warps, active);
    KeepFacts(warps, active);
    KeepOrder(warps, active);
    if |kept| < capacity {
      var cands := Candidates(warps, kept, |warps|);
      FillFacts(kept, cands, capacity);
      NewInOrder(warps, kept, cands, Room(kept, cands, capacity));
    }
  }

  /** `x` stands before `y`. */
  ghost predicate InOrder(s: seq<nat>, x: nat, y: nat) { exists i, j :: 0 <= i < j < |s| && s[i] == x && s[j] == y }

  /** The ready warp with the first id is older than the ready warp with the second. */
  ghost predicate AgeOrdered(warps: seq<WarpVal>, x: nat, y: nat) {
    exists i, j :: 0 <= i < |warps| && 0 <= j < |warps| && Aged(warps[i], x, warps[j], y)
  }

  predicate Aged(a: WarpVal, x: nat, b: WarpVal, y: nat) {
    && a.id == x && b.id == y && a.state == Ready && b.state == Ready
    && (a.readySince < b.readySince || (a.readySince == b.readySince && a.id < b.id))
  }

  lemma {:induction false} KeepOrder(warps: seq<WarpVal>, active: seq<nat>)
    ensures forall p, q :: 0 <= p < q < |Keep(warps, active)| ==>
            InOrder(active, Keep(warps, active)[p], Keep(warps, active)[q])
  {
    if active != [] {
      hide Stays;
      var init, n := active[..|active| - 1], |active| - 1;
      KeepOrder(warps, init);
      KeepFacts(warps, init);
      var kept := Keep(warps, active);
      forall p, q | 0 <= p < q < |kept|
        ensures InOrder(active, kept[p], kept[q])
      {
        if q < |Keep(warps, init)| {
          var i, j :| 0 <= i < j < |init| && init[i] == kept[p] && init[j] == kept[q];
          assert active[i] == kept[p] && active[j] == kept[q];
        } else {
          assert kept[p] in Keep(warps, init);
          var i :| 0 <= i < |init| && init[i] == kept[p];
          assert active[i] == kept[p] && active[n] == kept[q];
        }
      }
    }
  }

  lemma NewInOrder(warps: seq<WarpVal>, kept: seq<nat>, cands: seq<Candidate>, room: nat)
    requires UniqueIds(warps) && cands == Candidates(warps, kept, |warps|) && room <= |cands|
    ensures var after := kept + Ids(cands[..room]);
            forall p, q :: |kept| <= p < q < |after| ==> AgeOrdered(warps, after[p], after[q])
  {
    hide UniqueIds, Candidates;
    CandidatesFacts(warps, kept, |warps|);
    var after, n := kept + Ids(cands[..room]), |kept|;
    forall p, q | n <= p < q < |after|
      ensures AgeOrdered(warps, after[p], after[q])
    {
      var x, y := cands[p - n], cands[q - n];
      assert x in cands && y in cands;
      var i :| 0 <= i < |warps| && Offers(warps[i], kept, x);
      var j :| 0 <= j < |warps| && Offers(warps[j], kept, y);
      assert Before(x, y);
      assert Aged(warps[i], after[p], warps[j], after[q]);
    }
  }

  /** When nobody is ready nobody is chosen, and what round-robin and priority remember stays; the two-level index
      too. */
  lemma NobodyReady(warps: seq<WarpVal>, next: nat, capacity: nat, active: seq<nat>)
    requires forall j :: 0 <= j < |warps| ==> warps[j].state != Ready
    ensures Select(RoundRobin(next), warps) == Choice(None, RoundRobin(next))
    ensures Select(Priority(next), warps) == Choice(None, Priority(next))
    ensures Select(Greedy, warps).warp == None && Select(OldestFirst, warps).warp == None
    ensures var c := Select(TwoLevel(capacity, active, next), warps);
            c.warp == None && c.sched == TwoLevel(capacity, UpdateActive(warps, active, capacity), next)
  {
    PriorityIdles(warps, next);
    hide UpdateActive, ScanPriority;
  }

  // ---------------------------------------------------------------------------------------------
  // The first choice of a new scheduler

  /** New round-robin and greedy schedulers choose the first ready warp. */
  lemma FirstInList(warps: seq<WarpVal>, c: nat)
    requires c < |warps| && warps[c].state == Ready && forall j :: 0 <= j < c ==> warps[j].state != Ready
    ensures Select(FreshScheduler(RR), warps).warp == Some(c) && Select(FreshScheduler(GREEDY), warps).warp == Some(c)
  {
    hide Select, ScanFirst, ScanCyclic;
    GreedyChooses(warps);
    FromStart(|warps|, c);
    var f := RoundRobinChooses(warps, 0, c, c);
    FromStart(|warps|, f);
  }

  lemma FromStart(n: nat, c: nat)
    requires c < n
    ensures (0 + c) % n == c && AtDistance(0, n, c, c)
  {
  }

  lemma OneOldest(warps: seq<WarpVal>, a: nat, b: nat)
    requires Oldest(warps, a) && Oldest(warps, b)
    ensures a == b
  {
    assert NoYounger(warps, a, b) && NoYounger(warps, b, a);
  }

  /** New oldest-first and greedy-then-oldest schedulers choose the oldest ready warp. */
  lemma FirstOldest(warps: seq<WarpVal>, c: nat)
    requires Oldest(warps, c)
    ensures Select(FreshScheduler(OLDEST_FIRST), warps).warp == Some(c) &&
            Select(FreshScheduler(GTO), warps).warp == Some(c)
  {
    OldestFirstChooses(warps);
    GtoChooses(warps, None);
    var a, b := Select(OldestFirst, warps).warp, Select(Gto(None), warps).warp;
    hide Select, Oldest;
    assert a.Some? && b.Some? by { SomeOldest(warps, c); }
    OneOldest(warps, a.value, c);
    OneOldest(warps, b.value, c);
  }

  lemma SomeOldest(warps: seq<WarpVal>, c: nat)
    requires Oldest(warps, c)
    ensures c < |warps| && warps[c].state == Ready
  {
  }

  /** A new priority scheduler chooses the first of the ready warps of highest priority. */
  lemma FirstOfPriority(warps: seq<WarpVal>, c: nat)
    requires c < |warps| && warps[c].state == Ready && OnTop(warps, c)
    requires forall j :: 0 <= j < c && warps[j].state == Ready ==> warps[j].priority < warps[c].priority
    ensures Select(FreshScheduler(PRIORITY), warps).warp == Some(c)
  {
    hide ScanPriority, BestAt, NotAbove, StrictlyBelow;
    var d := PriorityStart(warps, 0, 0, c);
    BestFromStart(warps, d, c);
  }

  lemma BestFromStart(warps: seq<WarpVal>, d: nat, c: nat)
    requires BestAt(warps, 0, |warps|, d) && c < |warps| && IsReady(warps[c])
    ensures d < |warps| && (0 + d) % |warps| == d && IsReady(warps[d]) && warps[c].priority <= warps[d].priority
    ensures c < d ==> warps[c].priority < warps[d].priority
  {
    assert NotAbove(warps, 0, c, d);
    if c < d { assert StrictlyBelow(warps, 0, c, d); }
  }

  /** The two-level scheduler built with a size starts with an empty set of that size, so it chooses a ready warp if
      it has room for one. */
  lemma TwoLevelStart(warps: seq<WarpVal>, size: nat)
    requires UniqueIds(warps)
    ensures FreshScheduler(TWO_LEVEL(size)) == TwoLevel(size, [], 0)
    ensures size > 0 && (exists i :: 0 <= i < |warps| && warps[i].state == Ready) ==>
              Select(FreshScheduler(TWO_LEVEL(size)), warps).warp.Some?
    ensures size == 0 ==> Select(FreshScheduler(TWO_LEVEL(size)), warps).warp.None?
  {
    IdlesIff(warps, [], size, 0);
  }
}
