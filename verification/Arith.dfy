/** Facts about multiplication, division and remainder that the solver does not find by itself. */
module Arith {

  // The 32-bit unsigned numbers are those below.
  const UINT32: nat := 0x1_0000_0000

  lemma MulLe(a: int, b: int, c: nat)
    ensures a <= b ==> a * c <= b * c
  {
  }

  lemma MulPred(a: int, c: int)
    ensures (a - 1) * c == a * c - c
  {
  }

  // Quotient and remainder are the only ones that fit.
  lemma DivModUnique(n: int, d: nat, q: int, r: int)
    requires 0 <= r < d && n == q * d + r
    ensures n / d == q && n % d == r
  {
    var q', r' := n / d, n % d;
    assert n == q' * d + r';
    MulLe(q + 1, q', d);
    MulLe(q' + 1, q, d);
    MulPred(q + 1, d);
    MulPred(q' + 1, d);
  }

  lemma ModStep(n: int, d: nat)
    requires d > 0
    ensures (n - d) % d == n % d && (n - d) / d == n / d - 1
  {
    MulPred(n / d, d);
    DivModUnique(n - d, d, n / d - 1, n % d);
  }

  lemma SmallMod(n: nat, d: nat)
    requires n < d
    ensures n % d == n && n / d == 0
  {
    DivModUnique(n, d, 0, n);
  }

  lemma QuotientGe(n: nat, k: nat, d: nat)
    requires d > 0
    ensures n / d >= k <==> n >= k * d
  {
    var q := n / d;
    assert n == q * d + n % d;
    MulLe(k, q, d);
    MulLe(q + 1, k, d);
    MulPred(q + 1, d);
  }

  lemma DivStep(k: nat, d: nat)
    requires d > 0 && k > 0
    ensures k / d == (k - 1) / d + (if k % d == 0 then 1 else 0)
  {
    var q, r := (k - 1) / d, (k - 1) % d;
    assert k - 1 == q * d + r;
    if r + 1 == d {
      MulPred(q + 1, d);
      DivModUnique(k, d, q + 1, 0);
    } else {
      DivModUnique(k, d, q, r + 1);
    }
  }

  lemma {:induction false} ModMulAdd(n: nat, k: nat, d: nat)
    requires d > 0
    ensures (n + k * d) % d == n % d
    decreases k
  {
    if k > 0 {
      MulPred(k, d);
      ModMulAdd(n, k - 1, d);
      ModStep(n + k * d, d);
    }
  }
}
