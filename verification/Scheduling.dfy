/** The six warp schedulers as functions from a scheduler state and the warps to a choice and a new state. */
module SchedulingModel {
  import opened Common
  import opened WarpModel

  datatype SchedVal =
    | RoundRobin(next: nat)
    | Greedy
    | Priority(next: nat)
    | OldestFirst
    | Gto(last: Option<nat>)
    | TwoLevel(capacity: nat, active: seq<nat>, rr: nat)
    | Unset

  const LOWEST_PRIORITY: int := -0x8000_0000

  predicate IsReady(w: WarpVal) { w.state == Ready }

  predicate AnyReady(warps: seq<WarpVal>) { exists i :: 0 <= i < |warps| && IsReady(warps[i]) }

  /** The first ready index at cyclic distance `i` or more from `next`. */
  function ScanCyclic(warps: seq<WarpVal>, next: nat, i: nat): (r: Option<nat>)
    ensures r.Some? ==> r.value < |warps| && IsReady(warps[r.value])
    decreases |warps| - i
  {
    if i >= |warps| then None
    else if IsReady(warps[(next + i) % |warps|]) then Some((next + i) % |warps|)
    else ScanCyclic(warps, next, i + 1)
  }

  /** The ready index of highest priority above `best`, first in cyclic order from `next`. */
  function ScanPriority(warps: seq<WarpVal>, next: nat, i: nat, best: int, chosen: Option<nat>): (r: Option<nat>)
    requires chosen.Some? ==> chosen.value < |warps| && IsReady(warps[chosen.value])
    ensures r.Some? ==> r.value < |warps| && IsReady(warps[r.value])
    ensures chosen.Some? ==> r.Some?
    decreases |warps| - i
  {
    if i >= |warps| then chosen
    else
      var idx := (next + i) % |warps|;
      if IsReady(warps[idx]) && warps[idx].priority > best then
        ScanPriority(warps, next, i + 1, warps[idx].priority, Some(idx))
      else ScanPriority(warps, next, i + 1, best, chosen)
  }

  /** The first ready index from `i` on. */
  function ScanFirst(warps: seq<WarpVal>, i: nat): (r: Option<nat>)
    ensures r.Some? ==> i <= r.value < |warps| && IsReady(warps[r.value])
    decreases |warps| - i
  {
    if i >= |warps| then None else if IsReady(warps[i]) then Some(i) else ScanFirst(warps, i + 1)
  }

  /** Ready longer, or as long with a smaller id. */
  predicate Older(a: WarpVal, b: WarpVal) {
    a.readySince < b.readySince || (a.readySince == b.readySince && a.id < b.id)
  }

  /** The oldest ready index from `i` on, if older than `chosen`. */
  function ScanOldest(warps: seq<WarpVal>, i: nat, chosen: Option<nat>): (r: Option<nat>)
    requires chosen.Some? ==> chosen.value < |warps| && IsReady(warps[chosen.value])
    ensures r.Some? ==> r.value < |warps| && IsReady(warps[r.value])
    ensures chosen.Some? ==> r.Some?
    decreases |warps| - i
  {
    if i >= |warps| then chosen
    else if IsReady(warps[i]) && (chosen.None? || Older(warps[i], warps[chosen.value])) then
      ScanOldest(warps, i + 1, Some(i))
    else ScanOldest(warps, i + 1, chosen)
  }

  /** The first ready index from `i` on whose warp has id `id`. */
  function ScanId(warps: seq<WarpVal>, id: nat, i: nat): (r: Option<nat>)
    ensures r.Some? ==> i <= r.value < |warps| && IsReady(warps[r.value]) && warps[r.value].id == id
    decreases |warps| - i
  {
    if i >= |warps| then None
    else if warps[i].id == id && IsReady(warps[i]) then Some(i)
    else ScanId(warps, id, i + 1)
  }

  // The two-level scheduler's active set

  /** The first warp with id `id`, from `i` on. */
  function FindId(warps: seq<WarpVal>, id: nat, i: nat): (r: nat)
    requires i <= |warps|
    ensures i <= r <= |warps|
    ensures r < |warps| ==> warps[r].id == id
    ensures forall j :: i <= j < r ==> warps[j].id != id
    decreases |warps| - i
  {
    if i == |warps| || warps[i].id == id then i else FindId(warps, id, i + 1)
  }

  /** A member stays while a warp of its id is present and has not completed. */
  predicate Stays(warps: seq<WarpVal>, id: nat) {
    var i := FindId(warps, id, 0);
    i < |warps| && warps[i].state != Completed
  }

  function Keep(warps: seq<WarpVal>, active: seq<nat>): seq<nat> {
    if active == [] then []
    else
      var last := active[|active| - 1];
      Keep(warps, active[..|active| - 1]) + (if Stays(warps, last) then [last] else [])
  }

  datatype Candidate = Candidate(readySince: nat, id: nat)

  predicate Before(a: Candidate, b: Candidate) {
    a.readySince < b.readySince || (a.readySince == b.readySince && a.id < b.id)
  }

  /** Insertion into a list ordered by Before. */
  function InsertCandidate(s: seq<Candidate>, c: Candidate): seq<Candidate> {
    if s == [] || Before(c, s[0]) then [c] + s else [s[0]] + InsertCandidate(s[1..], c)
  }

  /** The ready warps outside the active set among the first `n`, oldest first. */
  function Candidates(warps: seq<WarpVal>, active: seq<nat>, n: nat): seq<Candidate>
    requires n <= |warps|
  {
    if n == 0 then []
    else
      var w := warps[n - 1];
      var rest := Candidates(warps, active, n - 1);
      if IsReady(w) && w.id !in active then InsertCandidate(rest, Candidate(w.readySince, w.id)) else rest
  }

  /** Append candidates while there is room. */
  function Fill(active: seq<nat>, candidates: seq<Candidate>, capacity: nat): seq<nat>
    decreases |candidates|
  {
    if candidates == [] || |active| >= capacity then active
    else Fill(active + [candidates[0].id], candidates[1..], capacity)
  }

  function UpdateActive(warps: seq<WarpVal>, active: seq<nat>, capacity: nat): seq<nat> {
    var kept := Keep(warps, active);
    if |kept| < capacity then Fill(kept, Candidates(warps, kept, |warps|), capacity) else kept
  }

  /** The first member at cyclic distance `i` or more from `rr` with a ready warp: its distance and the warp. */
  function ScanActive(warps: seq<WarpVal>, active: seq<nat>, rr: nat, i: nat): (r: Option<(nat, nat)>)
    ensures r.Some? ==> i <= r.value.0 < |active| && r.value.1 < |warps| && IsReady(warps[r.value.1])
    ensures r.Some? ==> warps[r.value.1].id in active
    decreases |active| - i
  {
    if i >= |active| then None
    else
      match ScanId(warps, active[(rr + i) % |active|], 0)
      case Some(w) => Some((i, w))
      case None => ScanActive(warps, active, rr, i + 1)
  }

  datatype Choice = Choice(warp: Option<nat>, sched: SchedVal)

  /** `select_warp` of each policy. */
  function Select(s: SchedVal, warps: seq<WarpVal>): (c: Choice)
    ensures c.warp.Some? ==> c.warp.value < |warps| && IsReady(warps[c.warp.value])
  {
    match s
    case RoundRobin(next) =>
      var c := ScanCyclic(warps, next, 0);
      if c.Some? then Choice(c, RoundRobin((c.value + 1) % |warps|)) else Choice(None, s)
    case Greedy => Choice(ScanFirst(warps, 0), s)
    case Priority(next) =>
      var c := ScanPriority(warps, next, 0, LOWEST_PRIORITY, None);
      if c.Some? then Choice(c, Priority((c.value + 1) % |warps|)) else Choice(None, s)
    case OldestFirst => Choice(ScanOldest(warps, 0, None), s)
    case Gto(last) =>
      var again := if last.Some? then ScanId(warps, last.value, 0) else None;
      var c := if again.Some? then again else ScanOldest(warps, 0, None);
      Choice(c, Gto(if c.Some? then Some(warps[c.value].id) else None))
    case TwoLevel(capacity, active, rr) =>
      var active' := UpdateActive(warps, active, capacity);
      (match ScanActive(warps, active', rr, 0)
       case Some((i, w)) => Choice(Some(w), TwoLevel(capacity, active', (rr + i + 1) % |active'|))
       case None => Choice(None, TwoLevel(capacity, active', rr)))
    case Unset => Choice(None, s)
  }
}
