/** Arithmetic the models share; each nonlinear fact is proved once in isolation. */
module Arithmetic {
  const U64_MAX: nat := 0xffff_ffff_ffff_ffff

  function Min(a: int, b: int): int {
    if a < b then a else b
  }

  lemma {:induction false} MulSucc(n: nat, z: nat)
    ensures (n + 1) * z == n * z + z
  {
  }

  lemma {:induction false} MulMono(i: nat, n: nat, z: nat)
    requires i <= n
    ensures i * z <= n * z
    decreases n - i
  {
    if i < n {
      MulMono(i, n - 1, z);
      MulSucc(n - 1, z);
    }
  }

  lemma {:induction false} DivModEq(x: nat, d: nat)
    requires d > 0
    ensures x == x / d * d + x % d
  {
  }

  /** A quotient and remainder are determined by the multiplication they come from. */
  lemma {:induction false} DivModUnique(x: nat, d: nat, q: nat, r: nat)
    requires r < d && x == q * d + r
    ensures x / d == q && x % d == r
  {
    var q', r' := x / d, x % d;
    assert x == q' * d + r';
    if q' < q {
      MulMono(q' + 1, q, d);
      MulSucc(q', d);
    } else if q < q' {
      MulMono(q + 1, q', d);
      MulSucc(q, d);
    }
  }

  /** Comparing with a multiple is comparing quotients. */
  lemma {:induction false} DivLess(x: nat, d: nat, m: nat)
    requires d > 0
    ensures x < m * d <==> x / d < m
  {
    DivModEq(x, d);
    var q := x / d;
    if q < m {
      MulMono(q + 1, m, d);
      MulSucc(q, d);
    } else {
      MulMono(m, q, d);
    }
  }
}
