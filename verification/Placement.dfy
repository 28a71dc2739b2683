/** Exact dispatch: every block of the grid comes to one SM with all its warps, stays there, and leaves when all of them
    have completed. */
module Placement {
  import opened Common
  import opened Isa
  import opened WarpModel
  import opened SmModel
  import opened Residency
  import opened BlockViews
  import opened GpuModel
  import opened Dispatch
  import GpuTermination
  import Structured
  import Progress
  import Termination

  // ---------------------------------------------------------------------------------------------
  // What admission adds

  function AllWarps(blocks: seq<ThreadBlock>): seq<WarpVal> {
    if blocks == [] then [] else blocks[0].warps + AllWarps(blocks[1..])
  }

  function Footprints(blocks: seq<ThreadBlock>, needs: Needs): (r: seq<ResidentBlock>)
    ensures |r| == |blocks|
  {
    seq(|blocks|, i requires 0 <= i < |blocks| => Footprint(blocks[i], needs))
  }

  /** Admission adds exactly the warps and the footprints of the blocks it takes, in grid order, and stops at the first
      block that does not fit. */
  lemma {:induction false} AdmitExact(s: SmVal, pending: seq<ThreadBlock>, next: nat, limits: Limits, needs: Needs)
    requires next <= |pending| && Admit(s, pending, next, limits, needs).Ok?
    ensures var a := Admit(s, pending, next, limits, needs).value;
            var taken := pending[next..a.next];
            && a.sm.warps == s.warps + AllWarps(taken)
            && a.sm.resident == s.resident + Footprints(taken, needs)
            && (a.next < |pending| ==> !CanAdmit(a.sm.usage, pending[a.next], limits, needs))
    decreases |pending| - next
  {
    hide CanAdmit;
    if next < |pending| && CanAdmit(s.usage, pending[next], limits, needs) {
      var s1 := AllocateBlock(s, pending[next], needs);
      AdmitExact(s1, pending, next + 1, limits, needs);
      var a := Admit(s1, pending, next + 1, limits, needs).value;
      var taken := pending[next..a.next];
      assert taken[0] == pending[next] && taken[1..] == pending[next + 1..a.next];
      assert s.warps + pending[next].warps + AllWarps(taken[1..]) == s.warps + AllWarps(taken);
      assert s.resident + [Footprint(taken[0], needs)] + Footprints(taken[1..], needs) ==
             s.resident + Footprints(taken, needs);
    } else {
      assert pending[next..next] == [];
    }
  }

  /** Of well-formed blocks with distinct ids, each contributes exactly its own warps. */
  lemma {:induction false} WarpsFrom(blocks: seq<ThreadBlock>, id: nat)
    requires forall j, i :: 0 <= j < |blocks| && 0 <= i < |blocks[j].warps| ==>
               Belongs(blocks[j].warps[i], blocks[j].id)
    requires forall i, j :: 0 <= i < j < |blocks| ==> blocks[i].id != blocks[j].id
    ensures forall j :: 0 <= j < |blocks| && blocks[j].id == id ==> BlockWarps(AllWarps(blocks), id) == blocks[j].warps
    ensures (forall j :: 0 <= j < |blocks| ==> blocks[j].id != id) ==> BlockWarps(AllWarps(blocks), id) == []
  {
    if blocks != [] {
      var first, rest := blocks[0], blocks[1..];
      WarpsFrom(rest, id);
      Joined(first.warps, AllWarps(rest), id);
      assert forall j :: 0 < j < |blocks| ==> blocks[j] == rest[j - 1];
      if first.id == id {
        AllOfBlock(first.warps, id);
      } else {
        NoneOfBlock(first.warps, id);
      }
    }
  }

  // ---------------------------------------------------------------------------------------------
  // One SM

  /** The SM has the block resident, with all its warps in order. */
  ghost predicate Hosts(s: SmVal, b: ThreadBlock, needs: Needs) {
    Footprint(b, needs) in s.resident && SameSeats(BlockWarps(s.warps, b.id), b.warps)
  }

  /** The SM has nothing of the block. */
  ghost predicate Absent(s: SmVal, id: nat) {
    (forall r :: r in s.resident ==> r.blockId != id) && BlockWarps(s.warps, id) == []
  }

  /** Release takes away exactly the completed blocks, with all their warps, and leaves every other block as it is. */
  lemma {:induction false} ReleaseExact(s: SmVal, limits: Limits, i: nat)
    requires i <= |s.resident| && Accounted(s, limits) && NoneCompleted(s, i)
    ensures var s' := ReleaseFrom(s, i);
            && (forall r :: r in s'.resident <==> r in s.resident && !BlockCompleted(s.warps, r.blockId))
            && (forall b: nat :: BlockWarps(s'.warps, b) ==
                                 if BlockCompleted(s.warps, b) then [] else BlockWarps(s.warps, b))
    decreases |s.resident| - i
  {
    hide Accounted, BlockCompleted, BlockWarps;
    if i == |s.resident| {
      forall b: nat | BlockCompleted(s.warps, b)
        ensures BlockWarps(s.warps, b) == []
      {
        NotResident(s, limits, b);
      }
    } else if BlockCompleted(s.warps, s.resident[i].blockId) {
      var id, s1 := s.resident[i].blockId, ReleaseOne(s, i);
      ReleaseOneFacts(s, limits, i);
      ReleaseExact(s1, limits, i);
      OneReleased(s, limits, i);
      forall b: nat
        ensures BlockWarps(ReleaseFrom(s1, i).warps, b) ==
                if BlockCompleted(s.warps, b) then [] else BlockWarps(s.warps, b)
      {
        WithoutSeen(s.warps, id, b);
        if b != id { OtherBlock(s.warps, id, b); }
      }
    } else {
      ReleaseExact(s, limits, i + 1);
    }
  }

  lemma OneReleased(s: SmVal, limits: Limits, i: nat)
    requires i < |s.resident| && Accounted(s, limits) && BlockCompleted(s.warps, s.resident[i].blockId)
    ensures var s1 := ReleaseOne(s, i);
            forall r :: r in s1.resident && !BlockCompleted(s1.warps, r.blockId) <==>
                        r in s.resident && !BlockCompleted(s.warps, r.blockId)
  {
    hide BlockCompleted, Within, Total, AllHoused;
    var id, s1 := s.resident[i].blockId, ReleaseOne(s, i);
    forall r | r in s.resident
      ensures r in s1.resident <==> r.blockId != id
      ensures r.blockId != id ==> (BlockCompleted(s1.warps, r.blockId) <==> BlockCompleted(s.warps, r.blockId))
    {
      var a :| 0 <= a < |s.resident| && s.resident[a] == r;
      if a < i { assert s1.resident[a] == r; }
      if a > i { assert s1.resident[a - 1] == r; }
      if r.blockId != id { OtherBlock(s.warps, id, r.blockId); }
    }
  }

  /** A completed block that is not resident has no warps. */
  lemma NotResident(s: SmVal, limits: Limits, b: nat)
    requires Accounted(s, limits) && NoneCompleted(s, |s.resident|) && BlockCompleted(s.warps, b)
    ensures BlockWarps(s.warps, b) == []
  {
    hide BlockWarps, BlockCompleted;
    forall i | 0 <= i < |s.warps|
      ensures !Belongs(s.warps[i], b)
    {
      assert IsResident(s.resident, s.warps[i]);
    }
    NoneOfBlock(s.warps, b);
  }

  lemma HomelessAbsent(s: SmVal, limits: Limits, id: nat)
    requires Accounted(s, limits) && forall r :: r in s.resident ==> r.blockId != id
    ensures Absent(s, id)
  {
    hide BlockWarps;
    forall i | 0 <= i < |s.warps|
      ensures !Belongs(s.warps[i], id)
    {
      assert IsResident(s.resident, s.warps[i]);
    }
    NoneOfBlock(s.warps, id);
  }

  lemma ReleaseHosts(s: SmVal, limits: Limits, b: ThreadBlock, needs: Needs)
    requires Accounted(s, limits)
    ensures var s' := ReleaseCompleted(s);
            && (Hosts(s, b, needs) ==>
                  if BlockCompleted(s.warps, b.id) then Absent(s', b.id) else Hosts(s', b, needs))
            && (Absent(s, b.id) ==> Absent(s', b.id))
  {
    hide Accounted, BlockCompleted, BlockWarps, ReleaseFrom, SameSeats;
    NoneBefore(s);
    ReleaseExact(s, limits, 0);
  }

  /** Whom an SM hosts after admission: the blocks it took, and those it hosted before. */
  lemma AdmitHosts(s: SmVal, c: nat, grid: seq<ThreadBlock>, next: nat, limits: Limits, needs: Needs,
                   placement: seq<nat>, j: nat)
    requires next <= |grid| && |placement| == next && GoodGrid(grid, limits, needs) && j < |grid|
    requires Accounted(s, limits) && PlacedCore(s, c, grid, next, needs, placement)
    ensures var r := Admit(s, grid, next, limits, needs);
            && r.Ok?
            && (if next <= j < r.value.next then Hosts(r.value.sm, grid[j], needs)
                else
                  && (Hosts(s, grid[j], needs) ==> Hosts(r.value.sm, grid[j], needs))
                  && (Absent(s, grid[j].id) ==> Absent(r.value.sm, grid[j].id)))
  {
    hide Accounted, Admit, CanAdmit, BlockWarps, AllWarps, SameSeat;
    AdmitFacts(s, c, grid, next, limits, needs, placement);
    AdmitExact(s, grid, next, limits, needs);
    var a := Admit(s, grid, next, limits, needs).value;
    var taken, b := grid[next..a.next], grid[j];
    GoodBlocks(grid, limits, needs);
    WarpsFrom(taken, b.id);
    Joined(s.warps, AllWarps(taken), b.id);
    assert forall i :: 0 <= i < |taken| ==> taken[i] == grid[next + i];
    if next <= j < a.next {
      assert taken[j - next] == b && Footprints(taken, needs)[j - next] == Footprint(b, needs);
      UnplacedAbsent(s, c, grid, next, limits, needs, placement, j);
      SeatsRefl(b.warps);
      assert Footprint(b, needs) in Footprints(taken, needs);
      assert [] + b.warps == b.warps;
    } else {
      assert forall i :: 0 <= i < |taken| ==> taken[i].id != b.id;
      assert forall r :: r in Footprints(taken, needs) ==> r.blockId != b.id;
      assert BlockWarps(s.warps, b.id) + [] == BlockWarps(s.warps, b.id);
    }
  }

  lemma GoodBlocks(grid: seq<ThreadBlock>, limits: Limits, needs: Needs)
    requires GoodGrid(grid, limits, needs)
    ensures forall j, i :: 0 <= j < |grid| && 0 <= i < |grid[j].warps| ==> Belongs(grid[j].warps[i], grid[j].id)
  {
    forall j, i | 0 <= j < |grid| && 0 <= i < |grid[j].warps|
      ensures Belongs(grid[j].warps[i], grid[j].id)
    {
      assert GoodBlock(grid[j], limits, needs);
    }
  }

  lemma UnplacedAbsent(s: SmVal, c: nat, grid: seq<ThreadBlock>, next: nat, limits: Limits, needs: Needs,
                       placement: seq<nat>, j: nat)
    requires next <= j < |grid| && |placement| == next && GoodGrid(grid, limits, needs)
    requires Accounted(s, limits) && PlacedCore(s, c, grid, next, needs, placement)
    ensures Absent(s, grid[j].id)
  {
    hide Accounted;
    forall r | r in s.resident
      ensures r.blockId != grid[j].id
    {
      assert PlacedAt(r, c, grid, next, needs, placement);
    }
    HomelessAbsent(s, limits, grid[j].id);
  }

  lemma TickHosts(k: Code, g: GpuVal, i: nat, b: ThreadBlock)
    requires i < |g.cores| && TickCore(k, g, i).Ok?
    ensures var s, s' := g.cores[i].sm, TickCore(k, g, i).value.cores[i].sm;
            && (Hosts(s, b, g.needs) ==> Hosts(s', b, g.needs)) && (Absent(s, b.id) ==> Absent(s', b.id))
  {
    hide Tick, BlockWarps, SameSeat;
    var s, m := g.cores[i].sm, MemoryOf(g, g.cores[i]);
    TickSeats(k, s, m);
    TickResident(k, s, m);
    var s' := Tick(k, s, m).value.sm;
    SeatsSeen(s'.warps, s.warps, b.id);
    if SameSeats(BlockWarps(s.warps, b.id), b.warps) {
      SeatsTrans(BlockWarps(s'.warps, b.id), BlockWarps(s.warps, b.id), b.warps);
    }
  }

  lemma SeatsSeen(a: seq<WarpVal>, c: seq<WarpVal>, id: nat)
    requires SameSeats(a, c)
    ensures SameSeats(BlockWarps(a, id), BlockWarps(c, id))
  {
    hide SameSeat;
    if a != [] {
      SeatsSeen(a[..|a| - 1], c[..|c| - 1], id);
      SeatBlock(a[|a| - 1], c[|c| - 1]);
    }
  }

  lemma SeatsRefl(a: seq<WarpVal>)
    ensures SameSeats(a, a)
  {
  }

  lemma SeatsTrans(a: seq<WarpVal>, b: seq<WarpVal>, c: seq<WarpVal>)
    requires SameSeats(a, b) && SameSeats(b, c)
    ensures SameSeats(a, c)
  {
    forall i | 0 <= i < |a|
      ensures SameSeat(a[i], c[i])
    {
      assert SameSeat(a[i], b[i]) && SameSeat(b[i], c[i]);
    }
  }

  // ---------------------------------------------------------------------------------------------
  // The GPU

  /** Of the first `n` SMs, exactly the one it was placed on hosts block `j`; the others have nothing of it. */
  ghost predicate HousedBelow(g: GpuVal, j: nat, n: nat) {
    && n <= |g.cores| && j < |g.pending| && j < |g.placement| && g.placement[j] < n
    && Hosts(g.cores[g.placement[j]].sm, g.pending[j], g.needs)
    && forall c :: 0 <= c < n && c != g.placement[j] ==> Absent(g.cores[c].sm, g.pending[j].id)
  }

  ghost predicate Housed(g: GpuVal, j: nat) { HousedBelow(g, j, |g.cores|) }

  /** No SM has anything of block `j`. */
  ghost predicate Gone(g: GpuVal, j: nat)
    requires j < |g.pending|
  {
    forall c :: 0 <= c < |g.cores| ==> Absent(g.cores[c].sm, g.pending[j].id)
  }

  /** Every warp of block `j` has completed. */
  ghost predicate AllDone(g: GpuVal, j: nat)
    requires Housed(g, j)
  {
    BlockCompleted(g.cores[g.placement[j]].sm.warps, g.pending[j].id)
  }

  /** Block `j` is housed and all its warps have completed. */
  ghost predicate Finished(g: GpuVal, j: nat) { Housed(g, j) && AllDone(g, j) }

  /** Some SM has exactly the block's warps, each with its id, priority and threads, and all of them have completed. */
  ghost predicate HasCompleted(g: GpuVal, b: ThreadBlock) {
    exists c :: 0 <= c < |g.cores| && Ended(BlockWarps(g.cores[c].sm.warps, b.id), b.warps)
  }

  ghost predicate Ended(now: seq<WarpVal>, built: seq<WarpVal>) {
    SameSeats(now, built) && forall i :: 0 <= i < |now| ==> now[i].state == Completed
  }

  lemma FinishedMeans(g: GpuVal, j: nat)
    requires Finished(g, j)
    ensures HasCompleted(g, g.pending[j])
  {
    hide BlockWarps, SameSeat;
    var b, s := g.pending[j], g.cores[g.placement[j]].sm;
    var view := BlockWarps(s.warps, b.id);
    Members(s.warps, b.id);
    forall i | 0 <= i < |view|
      ensures view[i].state == Completed
    {
      assert view[i] in view;
    }
    assert Ended(view, b.warps);
  }

  lemma PendingGone(g: GpuVal, j: nat)
    requires Dispatched(g) && g.next <= j < |g.pending|
    ensures Gone(g, j)
  {
    hide Accounted, GoodGrid, Absent;
    forall c | 0 <= c < |g.cores|
      ensures Absent(g.cores[c].sm, g.pending[j].id)
    {
      assert GoodCore(g, c);
      UnplacedAbsent(g.cores[c].sm, c, g.pending, g.next, g.limits, g.needs, g.placement, j);
    }
  }

  /** What refilling does to block `j`, if only SMs from `i` on are refilled. */
  ghost predicate Refilled(g: GpuVal, i: nat, g': GpuVal, j: nat)
    requires j < |g.pending| == |g'.pending|
  {
    && (Housed(g, j) && j < g.next ==> if g.placement[j] >= i && AllDone(g, j) then Gone(g', j) else Housed(g', j))
    && (Gone(g, j) && j < g.next ==> Gone(g', j))
    && (g.next <= j < g'.next ==> Housed(g', j))
  }

  lemma RefillOneHosts(g: GpuVal, i: nat, g': GpuVal, j: nat)
    requires Dispatched(g) && i < |g.cores| && AdmitTo(g, i, ReleaseCompleted(g.cores[i].sm)) == Ok(g')
    requires j < |g.pending|
    ensures |g'.cores| == |g.cores| && g'.pending == g.pending && g'.needs == g.needs
    ensures g.placement <= g'.placement && g.next <= g'.next == |g'.placement|
    ensures forall c :: 0 <= c < |g.cores| && c != i ==> g'.cores[c] == g.cores[c]
    ensures var s, s' := g.cores[i].sm, g'.cores[i].sm;
            if g.next <= j < g'.next then g'.placement[j] == i && Hosts(s', g.pending[j], g.needs)
            else
              && (Hosts(s, g.pending[j], g.needs) ==>
                    if BlockCompleted(s.warps, g.pending[j].id) then Absent(s', g.pending[j].id)
                    else Hosts(s', g.pending[j], g.needs))
              && (Absent(s, g.pending[j].id) ==> Absent(s', g.pending[j].id))
  {
    hide Accounted, GoodGrid, Admit, Hosts, Absent, BlockCompleted;
    var s := g.cores[i].sm;
    assert GoodCore(g, i);
    NoneBefore(s);
    ReleaseAccounted(s, g.limits, 0);
    ReleaseHosts(s, g.limits, g.pending[j], g.needs);
    AdmitHosts(ReleaseCompleted(s), i, g.pending, g.next, g.limits, g.needs, g.placement, j);
  }

  lemma {:induction false} RefillHouses(g: GpuVal, i: nat, j: nat)
    requires Dispatched(g) && i <= |g.cores| && j < |g.pending|
    ensures Refill(g, i).Ok?
    ensures var g' := Refill(g, i).value;
            g'.pending == g.pending && |g'.cores| == |g.cores| && g'.next >= g.next && Refilled(g, i, g', j)
    decreases |g.cores| - i
  {
    hide Dispatched, Hosts, Absent, BlockCompleted, ReleaseCompleted, AdmitTo;
    if i < |g.cores| {
      var g1 := RefillOne(g, i);
      RefillOneHosts(g, i, g1, j);
      RefillHouses(g1, i + 1, j);
      if g.next <= j { PendingGone(g, j); }
      OneRefilled(g, i, g1, j);
    }
  }

  /** What refilling SM `i` alone does. */
  lemma OneRefilled(g: GpuVal, i: nat, g1: GpuVal, j: nat)
    requires Dispatched(g) && i < |g.cores| && AdmitTo(g, i, ReleaseCompleted(g.cores[i].sm)) == Ok(g1)
    requires j < |g.pending|
    ensures g1.pending == g.pending && |g1.cores| == |g.cores|
    ensures Housed(g, j) && j < g.next ==>
              if g.placement[j] == i && AllDone(g, j) then Gone(g1, j)
              else
                && Housed(g1, j) && g1.placement[j] == g.placement[j]
                && (g.placement[j] != i ==> (AllDone(g1, j) <==> AllDone(g, j)))
    ensures Gone(g, j) && j < g.next ==> Gone(g1, j)
    ensures g.next <= j < g1.next ==> Housed(g1, j) && g1.placement[j] == i
  {
    hide Dispatched, Hosts, Absent, BlockCompleted, ReleaseCompleted, AdmitTo;
    RefillOneHosts(g, i, g1, j);
    if g.next <= j { PendingGone(g, j); }
  }

  lemma TickHouses(k: Code, g: GpuVal, i: nat, j: nat)
    requires i < |g.cores| && j < |g.pending| && TickCore(k, g, i).Ok?
    ensures var g' := TickCore(k, g, i).value;
            && g'.pending == g.pending && |g'.cores| == |g.cores|
            && (Housed(g, j) ==> Housed(g', j)) && (Gone(g, j) ==> Gone(g', j))
  {
    hide Tick, Hosts, Absent;
    TickHosts(k, g, i, g.pending[j]);
    TickShape(k, g, i);
  }

  lemma TickShape(k: Code, g: GpuVal, i: nat)
    requires i < |g.cores| && TickCore(k, g, i).Ok?
    ensures var g' := TickCore(k, g, i).value;
            && g'.placement == g.placement && g'.needs == g.needs && |g'.cores| == |g.cores|
            && forall c :: 0 <= c < |g.cores| && c != i ==> g'.cores[c] == g.cores[c]
  {
    hide Tick;
  }

  lemma {:induction false} TickAllHouses(k: Code, g: GpuVal, i: nat, j: nat)
    requires j < |g.pending| && TickAll(k, g, i).Ok?
    ensures var g' := TickAll(k, g, i).value;
            && g'.pending == g.pending && |g'.cores| == |g.cores|
            && (Housed(g, j) ==> Housed(g', j)) && (Gone(g, j) ==> Gone(g', j))
    decreases |g.cores| - i
  {
    hide Housed, Gone, TickCore, IsCompleted;
    if i < |g.cores| {
      if IsCompleted(g.cores[i].sm.warps) {
        TickAllHouses(k, g, i + 1, j);
      } else {
        TickHouses(k, g, i, j);
        TickAllHouses(k, TickCore(k, g, i).value, i + 1, j);
      }
    }
  }

  /** One iteration, for any kernel: a housed block stays housed unless all its warps had completed before, and then it
      is gone; a block that is gone stays away; a block that is newly dispatched is housed. */
  lemma IterateHouses(k: Code, g: GpuVal, j: nat)
    requires Dispatched(g) && |g.cores| > 0 && j < |g.pending| && Iterate(k, g).Ok?
    ensures var g' := Iterate(k, g).value.gpu;
            && g'.pending == g.pending && |g'.cores| == |g.cores| && g'.next >= g.next && Dispatched(g')
            && (Housed(g, j) && j < g.next ==> if AllDone(g, j) then Gone(g', j) else Housed(g', j))
            && (Gone(g, j) && j < g.next ==> Gone(g', j))
            && (g.next <= j < g'.next ==> Housed(g', j))
  {
    hide Dispatched, Hosts, Absent, Gone, AllDone, Refill, TickAll;
    IterateFacts(k, g);
    RefillHouses(g, 0, j);
    RefillFacts(g, 0);
    var g1 := Refill(g, 0).value;
    TickAllHouses(k, g1, 0, j);
    TickAllFacts(k, g1, 0);
  }

  // ---------------------------------------------------------------------------------------------
  // Whole runs

  /** The GPU after `m` iterations. */
  function StateAfter(k: Code, g: GpuVal, m: nat): GpuVal
    requires RunToCompletion(k, g, m).Ok?
  {
    RunToCompletion(k, g, m).value.gpu
  }

  lemma {:induction false} PrefixRuns(k: Code, g: GpuVal, m: nat, n: nat)
    requires m <= n && RunToCompletion(k, g, n).Ok?
    ensures RunToCompletion(k, g, m).Ok?
    decreases m
  {
    hide Iterate;
    if m > 0 && !Iterate(k, g).value.done {
      PrefixRuns(k, Iterate(k, g).value.gpu, m - 1, n - 1);
    }
  }

  /** Block `j` was housed with all its warps completed after fewer than `n` iterations. */
  ghost predicate FinishedBefore(k: Code, g: GpuVal, n: nat, j: nat) {
    exists m: nat :: m < n && RunToCompletion(k, g, m).Ok? && Finished(StateAfter(k, g, m), j)
  }

  /** After any number of iterations of any kernel, a block that was housed or pending at the start is pending, or
      housed on the SM it was placed on and on no other with all its warps, or was so with all of them completed and
      is gone. */
  lemma {:induction false} RunHouses(k: Code, g: GpuVal, n: nat, j: nat)
    requires Dispatched(g) && |g.cores| > 0 && j < |g.pending| && (j < g.next ==> Housed(g, j))
    requires RunToCompletion(k, g, n).Ok?
    ensures var g' := StateAfter(k, g, n);
            && g'.pending == g.pending && Dispatched(g')
            && (j < g'.next ==> Housed(g', j) || (Gone(g', j) && FinishedBefore(k, g, n, j)))
    decreases n
  {
    hide Dispatched, Housed, Gone, AllDone, Iterate;
    if n > 0 {
      IterateHouses(k, g, j);
      var it := Iterate(k, g).value;
      if j < g.next && AllDone(g, j) {
        assert StateAfter(k, g, 0) == g;
        assert FinishedBefore(k, g, n, j);
        if !it.done {
          NextWithin(it.gpu);
          StaysGone(k, it.gpu, n - 1, j);
        }
      } else if !it.done {
        RunHouses(k, it.gpu, n - 1, j);
        if FinishedBefore(k, it.gpu, n - 1, j) {
          var m: nat :| m < n - 1 && RunToCompletion(k, it.gpu, m).Ok? && Finished(StateAfter(k, it.gpu, m), j);
          assert StateAfter(k, g, m + 1) == StateAfter(k, it.gpu, m);
        }
      }
    }
  }

  lemma {:induction false} StaysGone(k: Code, g: GpuVal, n: nat, j: nat)
    requires Dispatched(g) && |g.cores| > 0 && j < g.next <= |g.pending| && Gone(g, j) && RunToCompletion(k, g, n).Ok?
    ensures var g' := StateAfter(k, g, n); g'.pending == g.pending && Dispatched(g') && Gone(g', j)
    decreases n
  {
    hide Dispatched, Gone, Iterate;
    if n > 0 {
      IterateHouses(k, g, j);
      var it := Iterate(k, g).value;
      if !it.done {
        NextWithin(it.gpu);
        StaysGone(k, it.gpu, n - 1, j);
      }
    }
  }

  // ---------------------------------------------------------------------------------------------
  // The launch

  lemma {:induction false} DispatchHouses(g: GpuVal, i: nat, j: nat)
    requires i <= |g.cores| && g.next <= |g.pending| && |g.placement| == g.next &&
             GoodGrid(g.pending, g.limits, g.needs)
    requires forall a :: 0 <= a < g.next ==> g.placement[a] < i
    requires forall c :: 0 <= c < i ==> GoodCore(g, c)
    requires j < g.next ==> HousedBelow(g, j, i)
    ensures DispatchFrom(g, i).Ok?
    ensures var g' := DispatchFrom(g, i).value; g'.pending == g.pending && (j < g'.next ==> Housed(g', j))
    decreases |g.cores| - i
  {
    hide GoodGrid, Accounted, Admit, Hosts, Absent;
    if i < |g.cores| {
      var s := ClearWarps(g.cores[i].sm);
      ClearedAccounted(g.cores[i].sm, g.limits);
      AdmitFacts(s, i, g.pending, g.next, g.limits, g.needs, g.placement);
      var g1 := AdmitTo(g, i, s).value;
      OneDispatched(g, i, g1);
      if j < g1.next { NewlyHoused(g, i, j, g1); }
      DispatchHouses(g1, i + 1, j);
    }
  }

  lemma OneDispatched(g: GpuVal, i: nat, g1: GpuVal)
    requires i < |g.cores| && g.next <= |g.pending| && |g.placement| == g.next && GoodGrid(g.pending, g.limits, g.needs)
    requires forall c :: 0 <= c < i ==> GoodCore(g, c)
    requires forall a :: 0 <= a < g.next ==> g.placement[a] < i
    requires AdmitTo(g, i, ClearWarps(g.cores[i].sm)) == Ok(g1)
    ensures g1.next <= |g1.pending| && |g1.placement| == g1.next && |g1.cores| == |g.cores|
    ensures g1.pending == g.pending && g1.limits == g.limits && g1.needs == g.needs
    ensures forall a :: 0 <= a < g1.next ==> g1.placement[a] < i + 1
    ensures forall c :: 0 <= c < i + 1 ==> GoodCore(g1, c)
  {
    hide GoodGrid, Accounted;
    var s := ClearWarps(g.cores[i].sm);
    ClearedAccounted(g.cores[i].sm, g.limits);
    AdmitFacts(s, i, g.pending, g.next, g.limits, g.needs, g.placement);
    forall c | 0 <= c < i + 1
      ensures GoodCore(g1, c)
    {
      if c != i {
        assert GoodCore(g, c);
        forall r | r in g1.cores[c].sm.resident
          ensures PlacedAt(r, c, g1.pending, g1.next, g1.needs, g1.placement)
        {
          MorePlaced(r, c, g.pending, g.next, g1.next, g.needs, g.placement, g1.placement);
        }
      }
    }
  }

  lemma NewlyHoused(g: GpuVal, i: nat, j: nat, g1: GpuVal)
    requires i < |g.cores| && g.next <= |g.pending| && |g.placement| == g.next && GoodGrid(g.pending, g.limits, g.needs)
    requires forall c :: 0 <= c < i ==> GoodCore(g, c)
    requires AdmitTo(g, i, ClearWarps(g.cores[i].sm)) == Ok(g1) && j < g1.next
    requires j < g.next ==> HousedBelow(g, j, i)
    ensures HousedBelow(g1, j, i + 1)
  {
    hide GoodGrid, Accounted, Admit, Hosts, Absent;
    var s := ClearWarps(g.cores[i].sm);
    ClearedAccounted(g.cores[i].sm, g.limits);
    ClearedAbsent(g.cores[i].sm, g.pending[j].id);
    AdmitHosts(s, i, g.pending, g.next, g.limits, g.needs, g.placement, j);
    forall c | 0 <= c < i && g.next <= j
      ensures Absent(g.cores[c].sm, g.pending[j].id)
    {
      assert GoodCore(g, c);
      UnplacedAbsent(g.cores[c].sm, c, g.pending, g.next, g.limits, g.needs, g.placement, j);
    }
  }

  lemma ClearedAbsent(s: SmVal, id: nat)
    ensures Absent(ClearWarps(s), id)
  {
  }

  /** After a launch every dispatched block is housed. */
  lemma LaunchHouses(g: GpuVal, grid: seq<ThreadBlock>, limits: Limits, needs: Needs, j: nat)
    requires GoodGrid(grid, limits, needs) && j < |grid|
    ensures Launch(g, grid, limits, needs).Ok?
    ensures var g' := Launch(g, grid, limits, needs).value;
            && Dispatched(g') && g'.pending == grid && |g'.cores| == |g.cores| && (j < g'.next ==> Housed(g', j))
  {
    LaunchFacts(g, grid, limits, needs);
    DispatchHouses(g.(pending := grid, next := 0, limits := limits, needs := needs, placement := []), 0, j);
  }

  /** Exact dispatch, from launch to return, for any kernel: after `n` iterations every block of the grid is pending, or
      resident on exactly one SM with exactly its warps, or has left after being so with all of them completed; and once
      the run has returned every block has. */
  lemma GridDispatchedExactly(k: Code, g: GpuVal, grid: seq<ThreadBlock>, limits: Limits, needs: Needs, n: nat, j: nat)
    requires GoodGrid(grid, limits, needs) && |g.cores| > 0 && j < |grid|
    requires Launch(g, grid, limits, needs).Ok? ==>
               RunToCompletion(k, Launch(g, grid, limits, needs).value, n).Ok?
    ensures Launch(g, grid, limits, needs).Ok?
    ensures var g0 := Launch(g, grid, limits, needs).value;
            var g' := StateAfter(k, g0, n);
            && g'.pending == grid
            && (j >= g'.next ==> Gone(g', j))
            && (j < g'.next ==> Housed(g', j) || (Gone(g', j) && FinishedBefore(k, g0, n, j)))
            && (RunToCompletion(k, g0, n).value.done ==> Gone(g', j) && FinishedBefore(k, g0, n, j))
  {
    hide Dispatched, Housed, Gone, Finished, Launch, GoodGrid, Iterate;
    LaunchHouses(g, grid, limits, needs, j);
    var g0 := Launch(g, grid, limits, needs).value;
    RunHouses(k, g0, n, j);
    RunDispatchesExactly(k, g0, n);
    var g' := StateAfter(k, g0, n);
    if j >= g'.next { PendingGone(g', j); }
    if RunToCompletion(k, g0, n).value.done { EmptyNotHoused(g', j); }
  }

  lemma EmptyNotHoused(g: GpuVal, j: nat)
    requires AllDispatchedAndReturned(g) && j < |g.pending|
    ensures !Housed(g, j) && j < g.next
  {
    hide BlockWarps;
  }

  /** After fewer than `n` iterations some SM had all the block's warps, completed. */
  ghost predicate CompletedBefore(k: Code, g: GpuVal, n: nat, b: ThreadBlock) {
    exists m: nat :: m < n && RunToCompletion(k, g, m).Ok? && HasCompleted(StateAfter(k, g, m), b)
  }

  lemma CompletedOnce(k: Code, g: GpuVal, grid: seq<ThreadBlock>, limits: Limits, needs: Needs, n: nat, j: nat)
    requires GoodGrid(grid, limits, needs) && |g.cores| > 0 && j < |grid| && Launch(g, grid, limits, needs).Ok?
    requires FinishedBefore(k, Launch(g, grid, limits, needs).value, n, j)
    ensures CompletedBefore(k, Launch(g, grid, limits, needs).value, n, grid[j])
  {
    hide Dispatched, Finished, HasCompleted, Launch, GoodGrid, RunToCompletion;
    var g0 := Launch(g, grid, limits, needs).value;
    var m: nat :| m < n && RunToCompletion(k, g0, m).Ok? && Finished(StateAfter(k, g0, m), j);
    GridDispatchedExactly(k, g, grid, limits, needs, m, j);
    FinishedMeans(StateAfter(k, g0, m), j);
  }

  /** The whole run of a structured kernel: the loop ends, and of every block of the grid exactly its warps were on
      some SM, all completed, before it left, unless a tick throws over data. */
  lemma GridFinishes(k: Code, g: GpuVal, grid: seq<ThreadBlock>, limits: Limits, needs: Needs) returns (n: nat)
    requires Structured.WellStructured(k) && GoodGrid(grid, limits, needs) && GpuTermination.StartingGrid(k, grid)
    requires |g.cores| > 0 && forall c :: 0 <= c < |g.cores| ==> Termination.LiveSched(g.cores[c].sm.sched, [])
    ensures Launch(g, grid, limits, needs).Ok?
    ensures var g0 := Launch(g, grid, limits, needs).value;
            var r := RunToCompletion(k, g0, n);
            if r.Throw? then Progress.DataError(r.error)
            else
              && r.value.done && AllDispatchedAndReturned(r.value.gpu)
              && forall j: nat :: j < |grid| ==> FinishedBefore(k, g0, n, j) && CompletedBefore(k, g0, n, grid[j])
  {
    hide GoodGrid, Structured.WellStructured, GpuTermination.StartingGrid, GpuTermination.GpuLively, Launch,
         RunToCompletion, AllDispatchedAndReturned, FinishedBefore, CompletedBefore, Housed, Gone,
         Termination.LiveSched, GpuTermination.GpuMeasure;
    GpuTermination.LaunchLive(k, g, grid, limits, needs);
    var g0 := Launch(g, grid, limits, needs).value;
    n := GpuTermination.GpuFinishes(k, g0, GpuTermination.GpuMeasure(k, g0.cores));
    if RunToCompletion(k, g0, n).Ok? {
      forall j: nat | j < |grid|
        ensures FinishedBefore(k, g0, n, j) && CompletedBefore(k, g0, n, grid[j])
      {
        GridDispatchedExactly(k, g, grid, limits, needs, n, j);
        CompletedOnce(k, g, grid, limits, needs, n, j);
      }
    }
  }
}
