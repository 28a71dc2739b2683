/** For which block sizes the kernel's rounds, with strides halved and rounded down, add up a whole block. */
module Halving {
  import opened Kernels
  import opened ReductionMath

  function Pow2(e: nat): (p: nat)
    ensures p > 0
  {
    if e == 0 then 1 else 2 * Pow2(e - 1)
  }

  ghost predicate IsPow2(n: nat) { exists e: nat :: n == Pow2(e) }

  /** How many of the leading cells of a block always reach its first cell. */
  function Counted(size: nat): (c: nat)
    requires size > 0
    ensures 0 < c <= size
  {
    if size == 1 then 1
    else if Counted(size / 2) == size / 2 then 2 * (size / 2)
    else Counted(size / 2)
  }

  /** All cells count exactly in a block whose size is a power of two. */
  lemma {:induction false} AllCountIff(size: nat)
    requires size > 0
    ensures Counted(size) == size <==> IsPow2(size)
    decreases size
  {
    assert Pow2(0) == 1;
    if size > 1 {
      AllCountIff(size / 2);
      if IsPow2(size) {
        var e: nat :| size == Pow2(e);
        assert size / 2 == Pow2(e - 1);
      }
      if IsPow2(size / 2) && size % 2 == 0 {
        var e: nat :| size / 2 == Pow2(e);
        assert size == Pow2(e + 1);
      }
    }
  }

  /** No round leaves out a cell that counts. */
  lemma {:induction false} LeftOutBeyond(size: nat, r: nat)
    requires size > 0 && r < RoundsOf(size) && Width(size, r) % 2 == 1
    ensures Counted(size) < Width(size, r)
    decreases r
  {
    if r > 0 {
      LeftOutBeyond(size / 2, r - 1);
      WidthWithin(size / 2, r - 1);
    }
  }

  /** Some round leaves out the first cell that does not count. */
  lemma {:induction false} LeftOut(size: nat) returns (r: nat)
    requires size > 0 && Counted(size) < size
    ensures r < RoundsOf(size) && Width(size, r) == Counted(size) + 1 && Width(size, r) % 2 == 1
    decreases size
  {
    if Counted(size / 2) == size / 2 {
      r := 0;
    } else {
      r := LeftOut(size / 2);
      r := r + 1;
    }
  }

  /** The cells from `u` on hold nothing. */
  predicate ZeroFrom(cells: seq<int>, u: nat) { forall t :: u <= t < |cells| ==> cells[t] == 0 }

  lemma {:induction false} ZerosStay(cells: seq<int>, u: nat, r: nat, t: nat)
    requires ZeroFrom(cells, u) && u <= t < |cells|
    ensures Partial(cells, r, t) == 0
    decreases r
  {
    if r > 0 {
      ZerosStay(cells, u, r - 1, t);
      if t < Stride(|cells|, r - 1) {
        StrideFits(|cells|, r - 1, t);
        ZerosStay(cells, u, r - 1, t + Stride(|cells|, r - 1));
      }
    }
  }

  lemma {:induction false} NothingLost(cells: seq<int>, r: nat)
    requires cells != [] && r <= RoundsOf(|cells|) && ZeroFrom(cells, Counted(|cells|))
    ensures Lost(cells, r) == 0
    decreases r
  {
    if r > 0 {
      NothingLost(cells, r - 1);
      WidthWithin(|cells|, r - 1);
      var w := Width(|cells|, r - 1);
      if w % 2 == 1 {
        LeftOutBeyond(|cells|, r - 1);
        ZerosStay(cells, Counted(|cells|), r - 1, w - 1);
      }
    }
  }

  /** If only cells that count hold anything, the rounds add the block up. */
  lemma CountedSums(cells: seq<int>)
    requires cells != [] && ZeroFrom(cells, Counted(|cells|))
    ensures Reduced(cells) == Total(cells)
  {
    LastRoundTotals(cells);
    NothingLost(cells, RoundsOf(|cells|));
  }

  predicate NonNegative(cells: seq<int>) { forall t :: 0 <= t < |cells| ==> cells[t] >= 0 }

  lemma {:induction false} PartialsGrow(cells: seq<int>, r: nat, t: nat)
    requires NonNegative(cells) && t < |cells|
    ensures 0 <= cells[t] <= Partial(cells, r, t)
    decreases r
  {
    if r > 0 {
      PartialsGrow(cells, r - 1, t);
      if t < Stride(|cells|, r - 1) {
        StrideFits(|cells|, r - 1, t);
        PartialsGrow(cells, r - 1, t + Stride(|cells|, r - 1));
      }
    }
  }

  /** The `r`-th round leaves out the last cell in use. */
  lemma {:induction false} LostAtLeast(cells: seq<int>, r: nat, n: nat)
    requires cells != [] && NonNegative(cells) && r < RoundsOf(|cells|) && Width(|cells|, r) % 2 == 1 &&
             n <= RoundsOf(|cells|)
    ensures 0 < Width(|cells|, r) <= |cells|
    ensures Lost(cells, n) >= if r < n then cells[Width(|cells|, r) - 1] else 0
    decreases n
  {
    WidthWithin(|cells|, r);
    if n > 0 {
      LostAtLeast(cells, r, n - 1);
      WidthWithin(|cells|, n - 1);
      PartialsGrow(cells, n - 1, Width(|cells|, n - 1) - 1);
    }
  }

  /** If the first cell that does not count holds something, and none holds less than nothing, the rounds fall short. */
  lemma OthersFallShort(cells: seq<int>)
    requires NonNegative(cells) && cells != [] && Counted(|cells|) < |cells| && cells[Counted(|cells|)] > 0
    ensures Reduced(cells) < Total(cells)
  {
    LastRoundTotals(cells);
    var r := LeftOut(|cells|);
    LostAtLeast(cells, r, RoundsOf(|cells|));
  }

  /** The rounds add up every block of `size` cells of which only the first `m` hold anything if and only if those
      count. */
  lemma HalvingSumsIff(size: nat, m: nat)
    requires 0 < size && m <= size
    ensures (forall cells: seq<int> :: |cells| == size && ZeroFrom(cells, m) ==> Reduced(cells) == Total(cells)) <==>
            m <= Counted(size)
  {
    if m <= Counted(size) {
      forall cells: seq<int> | |cells| == size && ZeroFrom(cells, m)
        ensures Reduced(cells) == Total(cells)
      {
        CountedSums(cells);
      }
    } else {
      var cells := seq(size, t => if t == Counted(size) then 1 else 0);
      OthersFallShort(cells);
      assert ZeroFrom(cells, m);
    }
  }

  /** With a block of six the strides are 3 and 1: the third cell, and what has been added to it, is left out. */
  lemma SixLoseTheThird(cells: seq<int>)
    requires |cells| == 6
    ensures Reduced(cells) == Total(cells) - cells[2] - cells[5]
    ensures Counted(6) == 2
  {
    assert Halvings(1) == 1;
    assert RoundsOf(6) == 2;
    assert Width(6, 1) == 3 && Width(6, 2) == 1;
    LastRoundTotals(cells);
    assert Lost(cells, 1) == 0;
    assert Counted(3) == 2;
  }
}
