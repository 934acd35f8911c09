/** Facts of nonlinear integer arithmetic that the solver does not find by itself. */
module Arith {

  lemma MulMono(x: int, y: int, z: int)
    requires x <= y && 0 <= z
    ensures x * z <= y * z
  {}

  lemma SquareNonneg(x: int)
    ensures 0 <= x * x
  {}

  lemma Distribute(e: int, p: int, q: int)
    ensures e * (p + q) == e * p + e * q
  {}

  lemma Associate(a: int, b: int, c: int)
    ensures a * b * c == a * (b * c)
  {}

  lemma Regroup(w: int, x: int, y: int, z: int)
    ensures (w * x) * (y * z) == (w * y) * (x * z)
  {
    assert (w * x) * (y * z) == w * (x * (y * z));
    assert x * (y * z) == y * (x * z);
    assert w * (y * (x * z)) == (w * y) * (x * z);
  }

  // Quotient and remainder of a number given by them.
  lemma DivMod(q: nat, c: nat, r: nat)
    requires r < c
    ensures (q * c + r) / c == q && (q * c + r) % c == r
  {
    var n := q * c + r;
    assert n == n / c * c + n % c;
    if n / c > q {
      MulMono(q + 1, n / c, c);
    } else if n / c < q {
      MulMono(n / c + 1, q, c);
    }
  }

  function PowerOfTwo(n: nat): nat {
    if n == 0 then 1 else 2 * PowerOfTwo(n - 1)
  }
}
