/** Binary digits of natural numbers, and the division facts that relate a
    right shift to them. */
module Bits {

  function Pow2(k: nat): (r: nat)
    ensures r > 0
  {
    if k == 0 then 1 else 2 * Pow2(k - 1)
  }

  /** Bit `k` of `n` is set. */
  predicate Bit(n: nat, k: nat) {
    (n / Pow2(k)) % 2 == 1
  }

  /** Shifting right by one moves bit `k + 1` to bit `k`. */
  lemma BitShift(n: nat, k: nat)
    ensures Bit(n / 2, k) <==> Bit(n, k + 1)
  {
    DivDiv(n, 2, Pow2(k));
  }

  lemma MulAtLeast(d: nat, m: nat)
    requires m >= 1
    ensures d * m >= d
  {
  }

  /** Euclidean division is determined by quotient and remainder. */
  lemma DivUnique(n: nat, d: nat, q: nat, r: nat)
    requires d > 0 && r < d && n == d * q + r
    ensures n / d == q
  {
    var q', r' := n / d, n % d;
    assert n == d * q' + r';
    if q > q' {
      assert d * q == d * q' + d * (q - q');
      MulAtLeast(d, q - q');
    } else if q < q' {
      assert d * q' == d * q + d * (q' - q);
      MulAtLeast(d, q' - q);
    }
  }

  lemma Regroup(n: nat, a: nat, b: nat, x: nat, r0: nat, q: nat, r1: nat)
    requires n == a * x + r0 && x == b * q + r1
    ensures n == (a * b) * q + (a * r1 + r0)
  {
  }

  lemma RemainderFits(a: nat, b: nat, r0: nat, r1: nat)
    requires r0 < a && r1 < b
    ensures a * r1 + r0 < a * b
  {
    assert a * b == a * r1 + a * (b - r1);
    MulAtLeast(a, b - r1);
  }

  lemma DivDiv(n: nat, a: nat, b: nat)
    requires a > 0 && b > 0
    ensures (n / a) / b == n / (a * b)
  {
    var x, r0 := n / a, n % a;
    var q, r1 := x / b, x % b;
    assert n == a * x + r0 && x == b * q + r1;
    Regroup(n, a, b, x, r0, q, r1);
    RemainderFits(a, b, r0, r1);
    DivUnique(n, a * b, q, a * r1 + r0);
  }
}
