/** The warp-scheduler objects: each selects the warp, and moves to the state, that the scheduling model says. */
module Schedulers {
  import opened Common
  import opened WarpModel
  import opened SchedulingModel
  import opened Warps

  /** What `select_warp` returned and left behind is the model's choice. */
  ghost predicate Selected(before: SchedVal, views: seq<WarpVal>, r: Option<nat>, after: SchedVal) {
    SchedulingModel.Select(before, views) == Choice(r, after)
  }

  class RoundRobinScheduler {
    var next: nat

    ghost function Abs(): SchedVal
      reads this
    {
      RoundRobin(next)
    }

    constructor ()
      ensures Abs() == RoundRobin(0)
    {
      next := 0;
    }

    method SelectWarp(warps: seq<Warp>) returns (r: Option<nat>)
      modifies this
      ensures Selected(old(Abs()), Views(warps), r, Abs())
    {
      for i := 0 to |warps|
        invariant next == old(next)
        invariant ScanCyclic(Views(warps), next, i) == ScanCyclic(Views(warps), next, 0)
      {
        var idx := (next + i) % |warps|;
        if warps[idx].state == Ready {
          next := (idx + 1) % |warps|;
          return Some(idx);
        }
      }
      return None;
    }
  }

  class GreedyScheduler {
    ghost function Abs(): SchedVal { Greedy }

    constructor () {}

    method SelectWarp(warps: seq<Warp>) returns (r: Option<nat>)
      ensures Selected(Abs(), Views(warps), r, Abs())
    {
      for i := 0 to |warps|
        invariant ScanFirst(Views(warps), i) == ScanFirst(Views(warps), 0)
      {
        if warps[i].state == Ready {
          return Some(i);
        }
      }
      return None;
    }
  }

  class PriorityScheduler {
    var next: nat

    ghost function Abs(): SchedVal
      reads this
    {
      Priority(next)
    }

    constructor ()
      ensures Abs() == Priority(0)
    {
      next := 0;
    }

    method SelectWarp(warps: seq<Warp>) returns (r: Option<nat>)
      modifies this
      ensures Selected(old(Abs()), Views(warps), r, Abs())
    {
      r := None;
      var best := LOWEST_PRIORITY;
      for i := 0 to |warps|
        invariant next == old(next)
        invariant r.Some? ==> r.value < |warps| && IsReady(Views(warps)[r.value])
        invariant ScanPriority(Views(warps), next, i, best, r) ==
                  ScanPriority(Views(warps), next, 0, LOWEST_PRIORITY, None)
      {
        var idx := (next + i) % |warps|;
        if warps[idx].state == Ready && warps[idx].priority > best {
          best := warps[idx].priority;
          r := Some(idx);
        }
      }
      if r.Some? {
        next := (r.value + 1) % |warps|;
      }
    }
  }

  /** The oldest ready warp, ties to the smaller id: shared by two policies. */
  method SelectOldest(warps: seq<Warp>) returns (r: Option<nat>)
    ensures r == ScanOldest(Views(warps), 0, None)
  {
    r := None;
    for i := 0 to |warps|
      invariant r.Some? ==> r.value < |warps| && IsReady(Views(warps)[r.value])
      invariant ScanOldest(Views(warps), i, r) == ScanOldest(Views(warps), 0, None)
    {
      if warps[i].state == Ready {
        if r.None? {
          r := Some(i);
        } else if warps[i].readySince < warps[r.value].readySince {
          r := Some(i);
        } else if warps[i].readySince == warps[r.value].readySince && warps[i].id < warps[r.value].id {
          r := Some(i);
        }
      }
    }
  }

  /** The first ready warp of the given id. */
  method FindReady(warps: seq<Warp>, id: nat) returns (r: Option<nat>)
    ensures r == ScanId(Views(warps), id, 0)
  {
    for i := 0 to |warps|
      invariant ScanId(Views(warps), id, i) == ScanId(Views(warps), id, 0)
    {
      if warps[i].id == id && warps[i].state == Ready {
        return Some(i);
      }
    }
    return None;
  }

  class OldestFirstScheduler {
    ghost function Abs(): SchedVal { OldestFirst }

    constructor () {}

    method SelectWarp(warps: seq<Warp>) returns (r: Option<nat>)
      ensures Selected(Abs(), Views(warps), r, Abs())
    {
      r := SelectOldest(warps);
    }
  }

  class GTOScheduler {
    var last: Option<nat>

    ghost function Abs(): SchedVal
      reads this
    {
      Gto(last)
    }

    constructor ()
      ensures Abs() == Gto(None)
    {
      last := None;
    }

    method SelectWarp(warps: seq<Warp>) returns (r: Option<nat>)
      modifies this
      ensures Selected(old(Abs()), Views(warps), r, Abs())
    {
      r := None;
      if last.Some? {
        r := FindReady(warps, last.value);
      }
      if r.None? {
        r := SelectOldest(warps);
      }
      last := if r.Some? then Some(warps[r.value].id) else None;
    }
  }

  // ---------------------------------------------------------------------------------------------
  // Two-level

  /** The library sort of the candidates, by the scheduler's comparison. */
  function SortCandidates(s: seq<Candidate>): seq<Candidate> {
    if s == [] then [] else InsertCandidate(SortCandidates(s[..|s| - 1]), s[|s| - 1])
  }

  lemma SortMore(s: seq<Candidate>, c: Candidate)
    ensures SortCandidates(s + [c]) == InsertCandidate(SortCandidates(s), c)
  {
    assert (s + [c])[..|s + [c]| - 1] == s;
  }

  lemma KeepMore(views: seq<WarpVal>, active: seq<nat>, i: nat)
    requires i < |active|
    ensures Keep(views, active[..i + 1]) ==
            Keep(views, active[..i]) + (if Stays(views, active[i]) then [active[i]] else [])
  {
    assert active[..i + 1][..|active[..i + 1]| - 1] == active[..i];
  }

  class TwoLevelScheduler {
    const capacity: nat
    var active: seq<nat>
    var rr: nat

    ghost function Abs(): SchedVal
      reads this
    {
      TwoLevel(capacity, active, rr)
    }

    constructor (capacity: nat)
      ensures Abs() == TwoLevel(capacity, [], 0)
    {
      this.capacity := capacity;
      active := [];
      rr := 0;
    }

    /** Whether a warp of this id is still present and uncompleted. */
    method StillRuns(warps: seq<Warp>, id: nat) returns (stays: bool)
      ensures stays <==> Stays(Views(warps), id)
    {
      for i := 0 to |warps|
        invariant FindId(Views(warps), id, i) == FindId(Views(warps), id, 0)
      {
        if warps[i].id == id {
          return warps[i].state != Completed;
        }
      }
      return false;
    }

    /** Drop the members whose warp has completed or gone. */
    method RemoveCompleted(warps: seq<Warp>)
      modifies this`active
      ensures active == Keep(Views(warps), old(active))
    {
      var kept: seq<nat> := [];
      for i := 0 to |active|
        invariant active == old(active)
        invariant kept == Keep(Views(warps), active[..i])
      {
        KeepMore(Views(warps), active, i);
        var stays := StillRuns(warps, active[i]);
        if stays {
          kept := kept + [active[i]];
        }
      }
      assert active[..|active|] == active;
      active := kept;
    }

    /** The ready warps outside the set, sorted oldest first. */
    method CollectCandidates(warps: seq<Warp>) returns (candidates: seq<Candidate>)
      ensures candidates == Candidates(Views(warps), active, |warps|)
    {
      var found: seq<Candidate> := [];
      for i := 0 to |warps|
        invariant SortCandidates(found) == Candidates(Views(warps), active, i)
      {
        if warps[i].id !in active && warps[i].state == Ready {
          var c := Candidate(warps[i].readySince, warps[i].id);
          SortMore(found, c);
          found := found + [c];
        }
      }
      candidates := SortCandidates(found);
    }

    method UpdateActiveSet(warps: seq<Warp>)
      modifies this`active
      ensures active == UpdateActive(Views(warps), old(active), capacity)
    {
      RemoveCompleted(warps);
      if |active| < capacity {
        var candidates := CollectCandidates(warps);
        ghost var kept := active;
        var i := 0;
        while i < |candidates| && |active| < capacity
          invariant i <= |candidates|
          invariant Fill(active, candidates[i..], capacity) == Fill(kept, candidates, capacity)
        {
          assert candidates[i..][1..] == candidates[i + 1..];
          active := active + [candidates[i].id];
          i := i + 1;
        }
      }
    }

    /** Round-robin within the active set. */
    method SelectActive(warps: seq<Warp>) returns (r: Option<nat>)
      modifies this`rr
      ensures match ScanActive(Views(warps), active, old(rr), 0)
              case Some((i, w)) => r == Some(w) && rr == (old(rr) + i + 1) % |active|
              case None => r == None && rr == old(rr)
    {
      for i := 0 to |active|
        invariant rr == old(rr)
        invariant ScanActive(Views(warps), active, rr, i) == ScanActive(Views(warps), active, rr, 0)
      {
        var found := FindReady(warps, active[(rr + i) % |active|]);
        if found.Some? {
          rr := (rr + i + 1) % |active|;
          return found;
        }
      }
      return None;
    }

    method SelectWarp(warps: seq<Warp>) returns (r: Option<nat>)
      modifies this
      ensures Selected(old(Abs()), Views(warps), r, Abs())
    {
      hide UpdateActive, Keep, Fill, Candidates;
      UpdateActiveSet(warps);
      r := SelectActive(warps);
    }
  }

  // ---------------------------------------------------------------------------------------------

  /** The scheduler an SM holds: the source's virtual dispatch, with no scheduler as a case. */
  datatype Scheduler =
    | UseRoundRobin(roundRobin: RoundRobinScheduler)
    | UseGreedy(greedy: GreedyScheduler)
    | UsePriority(priority: PriorityScheduler)
    | UseOldestFirst(oldestFirst: OldestFirstScheduler)
    | UseGto(gto: GTOScheduler)
    | UseTwoLevel(twoLevel: TwoLevelScheduler)
    | NoScheduler
  {
    function Objects(): set<object> {
      match this
      case UseRoundRobin(s) => {s}
      case UseGreedy(s) => {s}
      case UsePriority(s) => {s}
      case UseOldestFirst(s) => {s}
      case UseGto(s) => {s}
      case UseTwoLevel(s) => {s}
      case NoScheduler => {}
    }

    ghost function Abs(): SchedVal
      reads Objects()
    {
      match this
      case UseRoundRobin(s) => s.Abs()
      case UseGreedy(s) => s.Abs()
      case UsePriority(s) => s.Abs()
      case UseOldestFirst(s) => s.Abs()
      case UseGto(s) => s.Abs()
      case UseTwoLevel(s) => s.Abs()
      case NoScheduler => Unset
    }

    method SelectWarp(warps: seq<Warp>) returns (r: Option<nat>)
      modifies Objects()
      ensures Selected(old(Abs()), Views(warps), r, Abs())
    {
      match this
      case UseRoundRobin(s) => r := s.SelectWarp(warps);
      case UseGreedy(s) => r := s.SelectWarp(warps);
      case UsePriority(s) => r := s.SelectWarp(warps);
      case UseOldestFirst(s) => r := s.SelectWarp(warps);
      case UseGto(s) => r := s.SelectWarp(warps);
      case UseTwoLevel(s) => r := s.SelectWarp(warps);
      case NoScheduler => r := None;
    }
  }

  datatype SchedulerName = RR | GREEDY | PRIORITY | OLDEST_FIRST | GTO | TWO_LEVEL(activeSetSize: nat)

  function FreshScheduler(name: SchedulerName): SchedVal {
    match name
    case RR => RoundRobin(0)
    case GREEDY => Greedy
    case PRIORITY => Priority(0)
    case OLDEST_FIRST => OldestFirst
    case GTO => Gto(None)
    case TWO_LEVEL(n) => TwoLevel(n, [], 0)
  }

  /** `SchedulerFactory::create_scheduler`. */
  method CreateScheduler(name: SchedulerName) returns (s: Scheduler)
    ensures fresh(s.Objects()) && s.Abs() == FreshScheduler(name)
  {
    match name {
      case RR =>
        var o := new RoundRobinScheduler();
        s := UseRoundRobin(o);
      case GREEDY =>
        var o := new GreedyScheduler();
        s := UseGreedy(o);
      case PRIORITY =>
        var o := new PriorityScheduler();
        s := UsePriority(o);
      case OLDEST_FIRST =>
        var o := new OldestFirstScheduler();
        s := UseOldestFirst(o);
      case GTO =>
        var o := new GTOScheduler();
        s := UseGto(o);
      case TWO_LEVEL(n) =>
        var o := new TwoLevelScheduler(n);
        s := UseTwoLevel(o);
    }
  }
}
