/** The values a block reduction computes round by round, and where its instructions stand. */
module ReductionMath {
  import opened Common
  import opened Isa
  import opened Structured
  import opened Kernels

  /** How many cells are still in use before round `r` of a block of `size` threads. */
  function Width(size: nat, r: nat): nat { if r == 0 then size else Width(size / 2, r - 1) }

  lemma {:induction false} WidthHalves(size: nat, r: nat)
    ensures Width(size, r + 1) == Width(size, r) / 2 <= size / 2
  {
    if r > 0 { WidthHalves(size / 2, r - 1); }
  }

  /** The stride of round `r`, which is also how many cells it leaves in use. */
  function Stride(size: nat, r: nat): nat { Width(size, r + 1) }

  /** The number of rounds of a block. */
  function RoundsOf(size: nat): nat { Halvings(size / 2) }

  /** The rounds are those of a stride that is not zero, and the last leaves one cell. */
  lemma {:induction false} WidthPositive(size: nat, r: nat)
    requires size > 0
    ensures r < RoundsOf(size) <==> Stride(size, r) > 0
    ensures Width(size, RoundsOf(size)) == 1
    decreases size
  {
    if size > 1 {
      WidthPositive(size / 2, if r == 0 then 0 else r - 1);
      assert r > 0 ==> Stride(size, r) == Stride(size / 2, r - 1);
      assert Stride(size, 0) == Width(size / 2, 0);
    } else {
      WidthHalves(size, r);
    }
  }

  /** Two strides fit into what the round before left. */
  lemma StrideFits(size: nat, r: nat, t: nat)
    requires t < Stride(size, r)
    ensures t + Stride(size, r) < 2 * Stride(size, r) <= Width(size, r) <= size
  {
    WidthHalves(size, r);
    if r > 0 { WidthHalves(size, r - 1); }
  }

  /** Later strides are at most half the first. */
  lemma StrideShrinks(size: nat, r: nat)
    requires r > 0
    ensures 2 * Stride(size, r) <= Stride(size, 0)
  {
    WidthHalves(size / 2, r - 1);
    assert Stride(size, r) == Width(size / 2, r);
    assert Stride(size, 0) == Width(size / 2, 0);
  }

  /** What cell `t` holds before round `r`. */
  function Partial(input: seq<int>, r: nat, t: nat): int
    requires t < |input|
    decreases r
  {
    if r == 0 then input[t]
    else if t < Stride(|input|, r - 1) then
      StrideFits(|input|, r - 1, t);
      Partial(input, r - 1, t) + Partial(input, r - 1, t + Stride(|input|, r - 1))
    else Partial(input, r - 1, t)
  }

  /** What the rounds leave in the first cell. */
  function Reduced(input: seq<int>): int { if input == [] then 0 else Partial(input, RoundsOf(|input|), 0) }

  /** The sum of the cells from `a` to `b` before round `r`. */
  function CellSum(input: seq<int>, r: nat, a: nat, b: nat): int
    requires a <= b <= |input|
    decreases b - a
  {
    if a == b then 0 else CellSum(input, r, a, b - 1) + Partial(input, r, b - 1)
  }

  lemma CellSumSplit(input: seq<int>, r: nat, a: nat, b: nat, c: nat)
    requires a <= b <= c <= |input|
    ensures CellSum(input, r, a, c) == CellSum(input, r, a, b) + CellSum(input, r, b, c)
    decreases c - b
  {
    if b < c { CellSumSplit(input, r, a, b, c - 1); }
  }

  lemma RoundAdds(input: seq<int>, r: nat, m: nat)
    requires m <= Stride(|input|, r) && 2 * Stride(|input|, r) <= |input|
    ensures CellSum(input, r + 1, 0, m) ==
            CellSum(input, r, 0, m) + CellSum(input, r, Stride(|input|, r), Stride(|input|, r) + m)
  {
    if m > 0 {
      RoundAdds(input, r, m - 1);
    }
  }

  /** What the rounds before `r` have left out: the last cell in use, each time an odd number of them was halved. */
  function Lost(input: seq<int>, r: nat): int
    requires input != [] && r <= RoundsOf(|input|)
  {
    if r == 0 then 0
    else
      WidthWithin(|input|, r - 1);
      var w := Width(|input|, r - 1);
      Lost(input, r - 1) + if w % 2 == 1 then Partial(input, r - 1, w - 1) else 0
  }

  lemma WidthWithin(size: nat, r: nat)
    requires size > 0 && r <= RoundsOf(size)
    ensures 0 < Width(size, r) <= size
    ensures r < RoundsOf(size) ==> Width(size, r) > 1
  {
    WidthPositive(size, r);
    if r > 0 {
      WidthPositive(size, r - 1);
      WidthHalves(size, r - 1);
    }
    WidthHalves(size, r);
  }

  /** After every round the cells still in use sum to the block's total less what has been left out. */
  lemma {:induction false} RoundKeepsTotal(input: seq<int>, r: nat)
    requires input != [] && r <= RoundsOf(|input|)
    ensures Width(|input|, r) <= |input|
    ensures CellSum(input, r, 0, Width(|input|, r)) == Total(input) - Lost(input, r)
  {
    WidthWithin(|input|, r);
    if r == 0 {
      CellSumIsTotal(input, |input|);
      assert input[..|input|] == input;
    } else {
      RoundKeepsTotal(input, r - 1);
      WidthWithin(|input|, r - 1);
      WidthHalves(|input|, r - 1);
      var s, w := Stride(|input|, r - 1), Width(|input|, r - 1);
      RoundAdds(input, r - 1, s);
      CellSumSplit(input, r - 1, 0, s, 2 * s);
      CellSumSplit(input, r - 1, 0, 2 * s, w);
      CellSumOne(input, r - 1, 2 * s, w);
    }
  }

  lemma CellSumOne(input: seq<int>, r: nat, a: nat, b: nat)
    requires a <= b <= |input| && b <= a + 1
    ensures CellSum(input, r, a, b) == if a == b then 0 else Partial(input, r, a)
  {
    if a < b { assert CellSum(input, r, a, b - 1) == 0; }
  }

  function Total(s: seq<int>): int {
    if s == [] then 0 else Total(s[..|s| - 1]) + s[|s| - 1]
  }

  lemma CellSumIsTotal(input: seq<int>, m: nat)
    requires m <= |input|
    ensures CellSum(input, 0, 0, m) == Total(input[..m])
  {
    if m > 0 {
      CellSumIsTotal(input, m - 1);
      assert input[..m][..m - 1] == input[..m - 1];
    }
  }

  /** After the last round the first cell holds the sum of the whole block less what the rounds have left out. */
  lemma LastRoundTotals(input: seq<int>)
    requires input != []
    ensures Reduced(input) == Total(input) - Lost(input, RoundsOf(|input|))
  {
    var e := RoundsOf(|input|);
    RoundKeepsTotal(input, e);
    WidthPositive(|input|, 0);
    CellSumOne(input, e, 0, 1);
  }

  // ---------------------------------------------------------------------------------------------
  // Where the instructions stand

  /** The start of round `r`, or of the epilogue when `r` is the number of rounds. */
  function RoundStart(r: nat): nat { 4 + 11 * r }

  lemma RoundWithin(stride: nat, step: nat, r: nat, i: nat)
    requires r < Halvings(stride) && i < 11
    ensures |Rounds(stride, step)| == 11 * Halvings(stride)
    ensures Rounds(stride, step)[11 * r + i] == Round(Width(stride, r), step + r)[i]
    decreases stride
  {
    hide Round;
    RoundsLength(stride, step);
    RoundsLength(stride / 2, step + 1);
    if r > 0 {
      RoundWithin(stride / 2, step + 1, r - 1, i);
      assert 11 * r + i == 11 + (11 * (r - 1) + i);
    }
  }

  lemma {:induction false} RoundsLength(stride: nat, step: nat)
    ensures |Rounds(stride, step)| == 11 * Halvings(stride)
    decreases stride
  {
    hide Round;
    if stride > 0 { RoundsLength(stride / 2, step + 1); }
  }

  lemma CodeLength(size: nat)
    ensures |ReductionCode(size)| == RoundStart(RoundsOf(size)) + 6
  {
    hide Rounds;
    RoundsLength(size / 2, 0);
  }

  lemma PrologueAt(size: nat, p: nat)
    requires p < 4
    ensures p < |ReductionCode(size)| && ReductionCode(size)[p] == Prologue()[p]
  {
    CodeLength(size);
  }

  lemma RoundAt(size: nat, r: nat, i: nat)
    requires r < RoundsOf(size) && i < 11
    ensures RoundStart(r) + i < |ReductionCode(size)| &&
            ReductionCode(size)[RoundStart(r) + i] == Round(Stride(size, r), r)[i]
  {
    hide Rounds, Round, Prologue, Epilogue;
    CodeLength(size);
    RoundWithin(size / 2, 0, r, i);
    var rounds := Rounds(size / 2, 0);
    assert 11 * r + i < |rounds|;
    assert ReductionCode(size)[4 + (11 * r + i)] == rounds[11 * r + i];
  }

  lemma EpilogueAt(size: nat, i: nat)
    requires i < 6
    ensures RoundStart(RoundsOf(size)) + i < |ReductionCode(size)|
    ensures ReductionCode(size)[RoundStart(RoundsOf(size)) + i] == Epilogue()[i]
  {
    CodeLength(size);
  }

  /** The first instruction executed after `n` barriers. */
  function PhaseStart(n: nat): nat { if n == 0 then 0 else if n == 1 then 3 else RoundStart(n - 1) }

  /** The barriers before each place. */
  lemma BarriersAt(size: nat, p: nat)
    requires p <= |ReductionCode(size)| < WORD
    ensures BarriersBefore(ReductionCode(size), p) ==
            if p < 3 then 0 else if p < 4 then 1
            else if p < RoundStart(RoundsOf(size)) then 1 + (p - 4) / 11
            else RoundsOf(size) + 1
  {
    CodeLength(size);
    if p > 0 {
      BarriersAt(size, p - 1);
      BarrierPlaces(size, p - 1);
      if 4 <= p - 1 < RoundStart(RoundsOf(size)) {
        Elevenths(p - 5);
      }
    }
  }

  lemma Elevenths(x: nat)
    ensures (x + 1) / 11 == x / 11 + (if x % 11 == 10 then 1 else 0)
  {
  }

  lemma BarrierPlaces(size: nat, p: nat)
    requires p < |ReductionCode(size)|
    ensures ReductionCode(size)[p].opcode == BARRIER <==>
            p == 2 || (4 <= p < RoundStart(RoundsOf(size)) && (p - 4) % 11 == 10)
  {
    CodeLength(size);
    if p < 4 {
      PrologueAt(size, p);
    } else if p < RoundStart(RoundsOf(size)) {
      var r, i := (p - 4) / 11, (p - 4) % 11;
      assert p == RoundStart(r) + i;
      RoundAt(size, r, i);
    } else {
      EpilogueAt(size, p - RoundStart(RoundsOf(size)));
    }
  }

  /** Code behind exactly `n` barriers stands between two phase starts. */
  lemma PhaseOf(size: nat, n: nat, p: nat)
    requires p <= |ReductionCode(size)| < WORD && BarriersBefore(ReductionCode(size), p) == n
    ensures n <= RoundsOf(size) + 1 && PhaseStart(n) <= p && (n <= RoundsOf(size) ==> p < PhaseStart(n + 1))
  {
    BarriersAt(size, p);
  }
}
