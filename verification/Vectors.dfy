/** Inner products of integer vectors and the Cauchy-Schwarz inequality. */
module Vectors {
  import opened Arith

  // Inner product of the first n coordinates.
  function Dot(a: seq<int>, b: seq<int>, n: nat): int
    requires n <= |a| && n <= |b|
  {
    if n == 0 then 0 else Dot(a, b, n - 1) + a[n - 1] * b[n - 1]
  }

  function Norm(a: seq<int>, n: nat): int
    requires n <= |a|
  {
    Dot(a, a, n)
  }

  lemma {:induction false} NormNonneg(a: seq<int>, n: nat)
    requires n <= |a|
    ensures 0 <= Norm(a, n)
    ensures forall i :: 0 <= i < n ==> a[i] * a[i] <= Norm(a, n)
    decreases n
  {
    if n > 0 {
      NormNonneg(a, n - 1);
      SquareNonneg(a[n - 1]);
    }
  }

  lemma {:induction false} NormGrows(a: seq<int>, m: nat, n: nat)
    requires m <= n <= |a|
    ensures Norm(a, m) <= Norm(a, n)
    decreases n
  {
    if m < n {
      NormGrows(a, m, n - 1);
      SquareNonneg(a[n - 1]);
    }
  }

  lemma {:induction false} DotCommutes(a: seq<int>, b: seq<int>, n: nat)
    requires n <= |a| && n <= |b|
    ensures Dot(a, b, n) == Dot(b, a, n)
    decreases n
  {
    if n > 0 {
      DotCommutes(a, b, n - 1);
    }
  }

  // c = b + e * x, coordinate by coordinate
  predicate IsStep(c: seq<int>, b: seq<int>, e: int, x: seq<int>, n: nat) {
    n <= |c| && n <= |b| && n <= |x| && forall i :: 0 <= i < n ==> c[i] == b[i] + e * x[i]
  }

  lemma DistributeTerm(a: int, b: int, e: int, x: int)
    ensures a * (b + e * x) == a * b + e * (a * x)
  {}

  lemma {:induction false} DotStep(a: seq<int>, b: seq<int>, e: int, x: seq<int>, c: seq<int>, n: nat)
    requires n <= |a| && IsStep(c, b, e, x, n)
    ensures Dot(a, c, n) == Dot(a, b, n) + e * Dot(a, x, n)
    decreases n
  {
    if n > 0 {
      DotStep(a, b, e, x, c, n - 1);
      DistributeTerm(a[n - 1], b[n - 1], e, x[n - 1]);
      Distribute(e, Dot(a, x, n - 1), a[n - 1] * x[n - 1]);
    }
  }

  // |b + e x|^2 = |b|^2 + 2 e (b.x) + e^2 |x|^2
  lemma {:induction false} NormStep(b: seq<int>, e: int, x: seq<int>, c: seq<int>, n: nat)
    requires IsStep(c, b, e, x, n)
    ensures Norm(c, n) == Norm(b, n) + 2 * (e * Dot(b, x, n)) + e * (e * Norm(x, n))
  {
    DotStep(c, b, e, x, c, n);
    DotCommutes(c, b, n);
    DotStep(b, b, e, x, c, n);
    DotCommutes(c, x, n);
    DotStep(x, b, e, x, c, n);
    DotCommutes(x, b, n);
    Distribute(e, Dot(b, x, n), e * Norm(x, n));
  }

  // ---------- Cauchy-Schwarz ----------

  lemma MulStrict(y: int, x: int)
    requires 0 <= y < x
    ensures y * y < x * x
  {
    MulMono(y, x - 1, y);
    MulMono(y, x, x);
    assert (x - 1) * y == x * y - y;
  }

  lemma SquareLe(x: int, y: int)
    requires 0 <= y && x * x <= y * y
    ensures x <= y
  {
    if y < x {
      MulStrict(y, x);
    }
  }

  lemma FourProduct(p: int, q: int)
    ensures 4 * (p * q) <= (p + q) * (p + q)
  {
    SquareNonneg(p - q);
    assert (p + q) * (p + q) - 4 * (p * q) == (p - q) * (p - q);
  }

  // One step of the induction: P^2 <= S T gives the same with one more term.
  lemma CauchyStep(P: int, S: int, T: int, a: int, b: int)
    requires P * P <= S * T && 0 <= S && 0 <= T
    ensures (P + a * b) * (P + a * b) <= (S + a * a) * (T + b * b)
  {
    var p, q, z := S * (b * b), T * (a * a), (a * b) * (a * b);
    SquareNonneg(a);
    SquareNonneg(b);
    SquareNonneg(a * b);
    assert 0 <= p && 0 <= q;
    FourProduct(p, q);
    assert p * q == (S * T) * z by {
      Regroup(S, b * b, T, a * a);
      assert (b * b) * (a * a) == z by { Regroup(a, b, a, b); }
    }
    MulMono(P * P, S * T, z);
    var x := 2 * (P * (a * b));
    assert x * x == 4 * ((P * P) * z) by {
      Regroup(P, a * b, P, a * b);
      assert x * x == 4 * ((P * (a * b)) * (P * (a * b)));
    }
    SquareLe(x, p + q);
    assert (P + a * b) * (P + a * b) == P * P + x + z by { SquareOfSum(P, a * b); }
    assert (S + a * a) * (T + b * b) == S * T + p + q + z by { ProductOfSums(S, a, T, b); }
  }

  lemma SquareOfSum(p: int, q: int)
    ensures (p + q) * (p + q) == p * p + 2 * (p * q) + q * q
  {}

  lemma ProductOfSums(S: int, a: int, T: int, b: int)
    ensures (S + a * a) * (T + b * b) == S * T + S * (b * b) + T * (a * a) + (a * b) * (a * b)
  {
    var x, y := a * a, b * b;
    assert (S + x) * (T + y) == S * T + S * y + x * T + x * y;
    Regroup(a, a, b, b);
    assert x * y == (a * b) * (a * b);
  }

  lemma {:induction false} CauchySchwarz(a: seq<int>, b: seq<int>, n: nat)
    requires n <= |a| && n <= |b|
    ensures Dot(a, b, n) * Dot(a, b, n) <= Norm(a, n) * Norm(b, n)
    decreases n
  {
    if n > 0 {
      CauchySchwarz(a, b, n - 1);
      NormNonneg(a, n - 1);
      NormNonneg(b, n - 1);
      CauchyStep(Dot(a, b, n - 1), Norm(a, n - 1), Norm(b, n - 1), a[n - 1], b[n - 1]);
    }
  }
}
