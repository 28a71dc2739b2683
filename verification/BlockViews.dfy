/** One block at a time: an SM's tick, seen on the warps of one resident block. */
module BlockViews {
  import opened Common
  import opened Isa
  import opened WarpModel
  import opened MemoryModel
  import opened ExecutorModel
  import opened SmModel
  import opened Barriers

  /** The warps of one block, in their order. */
  function BlockWarps(warps: seq<WarpVal>, b: nat): seq<WarpVal> {
    if warps == [] then []
    else
      var last := warps[|warps| - 1];
      BlockWarps(warps[..|warps| - 1], b) + (if Belongs(last, b) then [last] else [])
  }

  /** Where the warp at `i` stands among its block's. */
  function Rank(warps: seq<WarpVal>, i: nat, b: nat): nat
    requires i <= |warps|
  {
    |BlockWarps(warps[..i], b)|
  }

  lemma OneMore(warps: seq<WarpVal>, w: WarpVal, b: nat)
    ensures BlockWarps(warps + [w], b) == BlockWarps(warps, b) + (if Belongs(w, b) then [w] else [])
  {
    assert (warps + [w])[..|warps + [w]| - 1] == warps;
  }

  lemma Members(warps: seq<WarpVal>, b: nat)
    ensures forall w :: w in BlockWarps(warps, b) <==> w in warps && Belongs(w, b)
  {
    if warps != [] {
      var init, last := warps[..|warps| - 1], warps[|warps| - 1];
      Members(init, b);
      assert warps == init + [last];
    }
  }

  lemma Joined(a: seq<WarpVal>, c: seq<WarpVal>, b: nat)
    ensures BlockWarps(a + c, b) == BlockWarps(a, b) + BlockWarps(c, b)
  {
    if c == [] {
      assert a + c == a;
    } else {
      var init, last := c[..|c| - 1], c[|c| - 1];
      Joined(a, init, b);
      assert a + c == a + init + [last] && c == init + [last];
      OneMore(a + init, last, b);
      OneMore(init, last, b);
      assert BlockWarps(a, b) + (BlockWarps(init, b) + (if Belongs(last, b) then [last] else [])) ==
             BlockWarps(a, b) + BlockWarps(init, b) + (if Belongs(last, b) then [last] else []);
    }
  }

  lemma AllOfBlock(warps: seq<WarpVal>, b: nat)
    requires forall i :: 0 <= i < |warps| ==> Belongs(warps[i], b)
    ensures BlockWarps(warps, b) == warps
  {
    if warps != [] {
      AllOfBlock(warps[..|warps| - 1], b);
    }
  }

  lemma NoneOfBlock(warps: seq<WarpVal>, b: nat)
    requires forall i :: 0 <= i < |warps| ==> !Belongs(warps[i], b)
    ensures BlockWarps(warps, b) == []
  {
    if warps != [] {
      NoneOfBlock(warps[..|warps| - 1], b);
    }
  }

  /** The warp at `i` is found at its rank. */
  lemma RankFinds(warps: seq<WarpVal>, i: nat, b: nat)
    requires i < |warps| && Belongs(warps[i], b)
    ensures Rank(warps, i, b) < |BlockWarps(warps, b)| && BlockWarps(warps, b)[Rank(warps, i, b)] == warps[i]
  {
    assert warps == warps[..i] + [warps[i]] + warps[i + 1..];
    OneMore(warps[..i], warps[i], b);
    Joined(warps[..i] + [warps[i]], warps[i + 1..], b);
  }

  /** Replacing one warp by one of the same block shows in that block's view only. */
  lemma Replaced(warps: seq<WarpVal>, i: nat, w: WarpVal, b: nat)
    requires i < |warps| && BlockOf(w) == BlockOf(warps[i])
    ensures Belongs(warps[i], b) ==>
              Rank(warps, i, b) < |BlockWarps(warps, b)| &&
              BlockWarps(warps[i := w], b) == BlockWarps(warps, b)[Rank(warps, i, b) := w]
    ensures !Belongs(warps[i], b) ==> BlockWarps(warps[i := w], b) == BlockWarps(warps, b)
  {
    var before, after := warps[..i], warps[i + 1..];
    assert warps == before + [warps[i]] + after && warps[i := w] == before + [w] + after;
    OneMore(before, warps[i], b);
    OneMore(before, w, b);
    Joined(before + [warps[i]], after, b);
    Joined(before + [w], after, b);
  }

  lemma WaitingSeen(warps: seq<WarpVal>, b: nat)
    ensures BlockWaiting(BlockWarps(warps, b), b) <==> BlockWaiting(warps, b)
    ensures SomeCompleted(BlockWarps(warps, b), b) <==> SomeCompleted(warps, b)
    ensures BlockCompleted(BlockWarps(warps, b), b) <==> BlockCompleted(warps, b)
  {
    var view := BlockWarps(warps, b);
    Members(warps, b);
    forall i | 0 <= i < |view|
      ensures view[i] in warps && Belongs(view[i], b)
    {
      assert view[i] in view;
    }
    forall i | 0 <= i < |warps| && Belongs(warps[i], b)
      ensures warps[i] in view
    {
    }
  }

  lemma ReleaseSeen(warps: seq<WarpVal>, key: nat, cycle: nat, b: nat)
    ensures BlockWarps(ReleaseBlock(warps, key, cycle), b) ==
            if b == key then ReleaseBlock(BlockWarps(warps, b), key, cycle) else BlockWarps(warps, b)
  {
    if warps != [] {
      var init, last := warps[..|warps| - 1], warps[|warps| - 1];
      ReleaseSeen(init, key, cycle, b);
      var released := ReleaseBlock(warps, key, cycle);
      assert released[..|released| - 1] == ReleaseBlock(init, key, cycle);
      if b == key && Belongs(last, b) {
        assert ReleaseBlock(BlockWarps(init, b) + [last], key, cycle) ==
               ReleaseBlock(BlockWarps(init, b), key, cycle) + [released[|released| - 1]];
      }
    }
  }

  lemma StallsSeen(warps: seq<WarpVal>, cycle: nat, b: nat)
    ensures BlockWarps(TickStalls(warps, cycle), b) == TickStalls(BlockWarps(warps, b), cycle)
  {
    if warps != [] {
      var init, last := warps[..|warps| - 1], warps[|warps| - 1];
      StallsSeen(init, cycle, b);
      var ticked := TickStalls(warps, cycle);
      assert ticked[..|ticked| - 1] == TickStalls(init, cycle);
      if Belongs(last, b) {
        assert TickStalls(BlockWarps(init, b) + [last], cycle) ==
          TickStalls(BlockWarps(init, b), cycle) + [TickStall(last, cycle)];
      }
    }
  }

  lemma WithoutSeen(warps: seq<WarpVal>, id: nat, b: nat)
    ensures BlockWarps(WithoutBlock(warps, id), b) == if b == id then [] else BlockWarps(warps, b)
  {
    if warps != [] {
      var init, last := warps[..|warps| - 1], warps[|warps| - 1];
      WithoutSeen(init, id, b);
      if Belongs(last, id) {
        assert WithoutBlock(warps, id) == WithoutBlock(init, id);
      } else {
        OneMore(WithoutBlock(init, id), last, b);
      }
    }
  }

  // ---------------------------------------------------------------------------------------------
  // Arrival and issue

  /** A result about all warps, seen from one block. */
  function SeenFrom(r: Result<seq<WarpVal>>, b: nat): Result<seq<WarpVal>> {
    if r.Ok? then Ok(BlockWarps(r.value, b)) else r
  }

  lemma ArrivalSeen(warps: seq<WarpVal>, i: nat, cycle: nat, b: nat)
    requires i < |warps| && Belongs(warps[i], b)
    ensures var view, p := BlockWarps(warps, b), Rank(warps, i, b);
            && p < |view| && view[p] == warps[i]
            && BarrierArrival(view, p, cycle) == SeenFrom(BarrierArrival(warps, i, cycle), b)
  {
    hide BlockWaiting, SomeCompleted, ReleaseBlock, Rank;
    RankFinds(warps, i, b);
    Replaced(warps, i, ArriveAtBarrier(warps[i]), b);
    var arrived := warps[i := ArriveAtBarrier(warps[i])];
    WaitingSeen(arrived, b);
    ReleaseSeen(arrived, b, cycle, b);
  }

  lemma ArrivalElsewhere(warps: seq<WarpVal>, i: nat, cycle: nat, b: nat, c: nat)
    requires i < |warps| && Belongs(warps[i], b) && c != b && BarrierArrival(warps, i, cycle).Ok?
    ensures BlockWarps(BarrierArrival(warps, i, cycle).value, c) == BlockWarps(warps, c)
  {
    hide BlockWaiting, SomeCompleted, ReleaseBlock;
    Replaced(warps, i, ArriveAtBarrier(warps[i]), c);
    ReleaseSeen(warps[i := ArriveAtBarrier(warps[i])], b, cycle, c);
  }

  /** Executing keeps a warp in its block. */
  lemma ExecutedBelongs(inst: Instruction, w: WarpVal, m: MemVal)
    requires Execute(inst, w, m).Ok?
    ensures BlockOf(Execute(inst, w, m).value.warp) == BlockOf(w)
  {
    ExecuteBlock(inst, w, m);
  }

  /** Issuing a warp of block `b`, seen from `b`, is issuing it among the warps of `b` alone. */
  lemma IssueSeen(k: Code, warps: seq<WarpVal>, i: nat, m: MemVal, cycle: nat, b: nat)
    requires i < |warps| && Belongs(warps[i], b)
    ensures var view, p := BlockWarps(warps, b), Rank(warps, i, b);
            && p < |view| && view[p] == warps[i]
            && (Issue(k, warps, i, m, cycle).Throw? ==>
                  Issue(k, view, p, m, cycle) == Throw(Issue(k, warps, i, m, cycle).error))
            && (Issue(k, warps, i, m, cycle).Ok? ==>
                  var r := Issue(k, warps, i, m, cycle).value;
                  Issue(k, view, p, m, cycle) == Ok(Issued(BlockWarps(r.warps, b), r.mem)))
  {
    hide Execute, BarrierArrival, Finish, Rank, BlockWarps, Belongs;
    var w := warps[i];
    RankFinds(warps, i, b);
    Replaced(warps, i, w.(state := Completed), b);
    if w.pc < |k| && Execute(k[w.pc], w, m).Ok? {
      var o := Execute(k[w.pc], w, m).value;
      ExecutedBelongs(k[w.pc], w, m);
      SettledSeen(k, warps, i, o, cycle, b);
    }
  }

  /** The part of an issue after the instruction has executed. */
  function AfterExecute(k: Code, warps: seq<WarpVal>, i: nat, o: Outcome, cycle: nat): Result<seq<WarpVal>>
    requires i < |warps|
  {
    var executed := warps[i := o.warp];
    var arrived :- if o.status == BarrierReached then BarrierArrival(executed, i, cycle) else Ok(executed);
    Ok(arrived[i := Finish(k, arrived[i], o.status, o.latency)])
  }

  lemma ArrivedBelongs(warps: seq<WarpVal>, i: nat, cycle: nat)
    requires i < |warps| && BarrierArrival(warps, i, cycle).Ok?
    ensures forall j :: 0 <= j < |warps| ==> BlockOf(BarrierArrival(warps, i, cycle).value[j]) == BlockOf(warps[j])
  {
  }

  lemma FinishedBelongs(k: Code, w: WarpVal, status: Status, latency: nat)
    ensures BlockOf(Finish(k, w, status, latency)) == BlockOf(w)
  {
  }

  lemma RankStart(warps: seq<WarpVal>, b: nat)
    ensures Rank(warps, 0, b) == 0
  {
  }

  lemma RankStep(warps: seq<WarpVal>, i: nat, b: nat)
    requires i < |warps|
    ensures Rank(warps, i + 1, b) == Rank(warps, i, b) + (if Belongs(warps[i], b) then 1 else 0)
  {
    assert warps[..i + 1] == warps[..i] + [warps[i]];
    OneMore(warps[..i], warps[i], b);
  }

  /** Ranks depend on the blocks of the earlier warps only. */
  lemma SameRank(a: seq<WarpVal>, c: seq<WarpVal>, i: nat, b: nat)
    requires |a| == |c| && i <= |a| && forall j :: 0 <= j < |a| ==> BlockOf(a[j]) == BlockOf(c[j])
    ensures Rank(a, i, b) == Rank(c, i, b)
  {
    hide Rank;
    if i > 0 {
      SameRank(a, c, i - 1, b);
      RankStep(a, i - 1, b);
      RankStep(c, i - 1, b);
    } else {
      RankStart(a, b);
      RankStart(c, b);
    }
  }

  lemma SettledSeen(k: Code, warps: seq<WarpVal>, i: nat, o: Outcome, cycle: nat, b: nat)
    requires i < |warps| && Belongs(warps[i], b) && BlockOf(o.warp) == BlockOf(warps[i])
    ensures var view, p := BlockWarps(warps, b), Rank(warps, i, b);
            p < |view| && AfterExecute(k, view, p, o, cycle) == SeenFrom(AfterExecute(k, warps, i, o, cycle), b)
  {
    hide BarrierArrival, Finish, Rank, BlockWarps;
    var executed := warps[i := o.warp];
    Replaced(warps, i, o.warp, b);
    SameRank(warps, executed, i, b);
    ArrivalSeen(executed, i, cycle, b);
    RankFinds(executed, i, b);
    var arrived := if o.status == BarrierReached then BarrierArrival(executed, i, cycle) else Ok(executed);
    if arrived.Ok? {
      if o.status == BarrierReached { ArrivedBelongs(executed, i, cycle); }
      SameRank(warps, arrived.value, i, b);
      RankFinds(arrived.value, i, b);
      FinishedBelongs(k, arrived.value[i], o.status, o.latency);
      Replaced(arrived.value, i, Finish(k, arrived.value[i], o.status, o.latency), b);
    }
  }

  /** Issuing a warp of block `b` does not show in the view of any other block. */
  lemma IssueElsewhere(k: Code, warps: seq<WarpVal>, i: nat, m: MemVal, cycle: nat, b: nat, c: nat)
    requires i < |warps| && Belongs(warps[i], b) && c != b && Issue(k, warps, i, m, cycle).Ok?
    ensures BlockWarps(Issue(k, warps, i, m, cycle).value.warps, c) == BlockWarps(warps, c)
  {
    hide Execute, BarrierArrival, Finish, BlockWarps, Rank;
    var w := warps[i];
    Replaced(warps, i, w.(state := Completed), c);
    if w.pc < |k| {
      var o := Execute(k[w.pc], w, m).value;
      ExecutedBelongs(k[w.pc], w, m);
      var executed := warps[i := o.warp];
      Replaced(warps, i, o.warp, c);
      var arrived := if o.status == BarrierReached then BarrierArrival(executed, i, cycle).value else executed;
      if o.status == BarrierReached {
        ArrivalElsewhere(executed, i, cycle, b, c);
        ArrivedBelongs(executed, i, cycle);
      }
      FinishedBelongs(k, arrived[i], o.status, o.latency);
      Replaced(arrived, i, Finish(k, arrived[i], o.status, o.latency), c);
    }
  }
}
