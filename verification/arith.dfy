/** Small integer helpers shared by the rasteriser, and the division facts its proofs need. */
module Arith {

  function Abs(x: int): (r: nat)
    ensures r == x || r == -x
  {
    if x < 0 then -x else x
  }

  function Min(a: int, b: int): (r: int)
    ensures r <= a && r <= b && (r == a || r == b)
  {
    if a < b then a else b
  }

  function Max(a: int, b: int): (r: int)
    ensures r >= a && r >= b && (r == a || r == b)
  {
    if a < b then b else a
  }

  /** `lo <= v <= hi` for the two ends given in either order. */
  predicate Between(v: int, e1: int, e2: int)
  {
    e1 <= v <= e2 || e2 <= v <= e1
  }

  /** Multiplying by a non-negative factor keeps the order. */
  lemma MulMono(c: int, a: int, b: int)
    requires c >= 0 && a <= b
    ensures c * a <= c * b
  {
    var k := b - a;
    assert c * b == c * a + c * k;
  }

  /** Floor division is pinned down by the two bounds around the dividend. */
  lemma DivIs(n: int, den: int, q: int)
    requires den > 0
    requires den * q <= n < den * q + den
    ensures n / den == q
  {
    var r := n / den;
    assert n == den * r + n % den;
    if r < q {
      MulMono(den, r + 1, q);
    } else if r > q {
      MulMono(den, q + 1, r);
    }
  }

  /** Floor division by a positive number keeps the order. */
  lemma DivMono(a: int, b: int, den: int)
    requires den > 0 && a <= b
    ensures a / den <= b / den
  {
    var qa, qb := a / den, b / den;
    assert a == den * qa + a % den;
    assert b == den * qb + b % den;
    if qa > qb {
      MulMono(den, qb + 1, qa);
    }
  }

  /** A value no further from 0 than `a` has a square no larger than `a`'s. */
  lemma SquareBound(t: int, a: int)
    requires -a <= t <= a
    ensures t * t <= a * a
  {
    MulMono(Abs(t), Abs(t), a);
    MulMono(a, Abs(t), a);
  }

  /** Multiplying by a unit direction keeps or flips the sign. */
  lemma UnitMul(s: int, n: int)
    requires s == 1 || s == -1
    ensures s * n == if s == 1 then n else -n
  {
  }

  /** Peeling one row off an `n` by `m` block. */
  lemma Peel(n: int, m: int)
    ensures n * m == m + (n - 1) * m
  {
  }
}
