/** Division with remainder, and walking round a ring of n places. */
module Cyclic {
  lemma DivisionUnique(n: nat, q: int, r: nat, q': int, r': nat)
    requires r < n && r' < n && n * q + r == n * q' + r'
    ensures q == q' && r == r'
  {
    if q < q' {
      assert n * (q' - q) == n * q' - n * q;
      Scaled(n, q' - q);
    } else if q' < q {
      assert n * (q - q') == n * q - n * q';
      Scaled(n, q - q');
    }
  }

  lemma Scaled(n: nat, d: int)
    requires d >= 1
    ensures n * d >= n
  {
    assert n * d == n + n * (d - 1);
  }

  lemma ModOf(i: nat, n: nat, q: nat)
    requires i < n
    ensures (i + n * q) % n == i && (i + n * q) / n == q
  {
    var x := i + n * q;
    assert x == n * (x / n) + x % n;
    DivisionUnique(n, q, i, x / n, x % n);
  }

  lemma CyclicCovers(n: nat, next: nat, i: nat) returns (d: nat)
    requires i < n
    ensures d < n && (next + d) % n == i
  {
    var r := next % n;
    d := if r <= i then i - r else i + n - r;
    var q := next / n;
    assert next + d == i + n * (if r <= i then q else q + 1);
    ModOf(i, n, if r <= i then q else q + 1);
  }

  function Mod(a: nat, n: nat): nat
    requires n > 0
  {
    a % n
  }

  lemma ModAdd(a: nat, b: nat, n: nat)
    requires n > 0
    ensures Mod(Mod(a, n) + b, n) == Mod(a + b, n)
  {
    var x, y := a % n + b, a + b;
    assert a == n * (a / n) + a % n && y == n * (y / n) + y % n && x == n * (x / n) + x % n;
    assert n * (y / n) + y % n == n * (x / n + a / n) + x % n by {
      assert n * (x / n + a / n) == n * (x / n) + n * (a / n);
    }
    DivisionUnique(n, y / n, y % n, x / n + a / n, x % n);
  }

  /** `x` is `d` places after `next` on the ring. */
  predicate AtDistance(next: nat, n: nat, x: nat, d: nat) { d < n && Mod(next + d, n) == x }

  lemma StepAndMore(a: nat, b: nat, n: nat)
    requires n > 0
    ensures Mod(Mod(Mod(a, n) + 1, n) + b, n) == Mod(a + 1 + b, n)
  {
    hide Mod;
    ModAdd(Mod(a, n) + 1, b, n);
    ModAdd(a, 1 + b, n);
    assert Mod(a, n) + 1 + b == Mod(a, n) + (1 + b);
  }

  /** Moving on past the place at distance `i` brings a farther place that much closer. */
  lemma Closer(next: nat, n: nat, x: nat, d: nat, i: nat)
    requires AtDistance(next, n, x, d) && i < d
    ensures AtDistance(Mod(Mod(next + i, n) + 1, n), n, x, d - i - 1)
  {
    hide Mod;
    StepAndMore(next + i, d - i - 1, n);
    assert next + i + 1 + (d - i - 1) == next + d;
  }
}
