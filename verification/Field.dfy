/** Field elements and the hash functions over them.

A 32-byte value of the source is a `Felt`, and `[0u8; 32]` is 0. Poseidon is any total
function: every lemma holds for all of them, and the few that need collision freedom say
so with `Injective4`.
 */
module Field {
  type Felt = int
  type Hash2 = (Felt, Felt) -> Felt
  type Hash3 = (Felt, Felt, Felt) -> Felt
  type Hash4 = (Felt, Felt, Felt, Felt) -> Felt

  ghost predicate Injective4(h: Hash4) {
    forall a, b, c, d, a', b', c', d' ::
      h(a, b, c, d) == h(a', b', c', d') ==> a == a' && b == b' && c == c' && d == d'
  }

  ghost predicate Injective2(h: Hash2) {
    forall a, b, a', b' :: h(a, b) == h(a', b') ==> a == a' && b == b'
  }

  const BN254_MODULUS: int := 0x30644e72e131a029b85045b68181585d2833e84879b9709143e1f593f0000001

  /** `is_canonical_bn254_scalar_be`. */
  predicate Canonical(x: Felt) {
    0 <= x < BN254_MODULUS
  }

  function DivCeil(n: nat, d: nat): nat
    requires d > 0
  {
    (n + d - 1) / d
  }
}
