/** Binary arithmetic on unbounded naturals: the shifts, `|` and big-endian bytes of the Rust source. */
module Bits {
  function Pow2(n: nat): nat {
    if n == 0 then 1 else 2 * Pow2(n - 1)
  }

  function Popcount(n: nat): nat {
    if n == 0 then 0 else n % 2 + Popcount(n / 2)
  }

  function Shl(x: nat, k: nat): nat {
    if k == 0 then x else 2 * Shl(x, k - 1)
  }

  function Shr(x: nat, k: nat): nat {
    if k == 0 then x else Shr(x / 2, k - 1)
  }

  /** The lowest `k` bits. */
  function Low(x: nat, k: nat): nat {
    if k == 0 then 0 else x % 2 + 2 * Low(x / 2, k - 1)
  }

  function BitOr(a: nat, b: nat): nat {
    if a == 0 && b == 0 then 0
    else 2 * BitOr(a / 2, b / 2) + (if a % 2 == 1 || b % 2 == 1 then 1 else 0)
  }

  lemma {:induction false} OrZero(a: nat)
    ensures BitOr(a, 0) == a
  {
    if a > 0 {
      OrZero(a / 2);
    }
  }

  /** `|` works on the low and the high bits apart. */
  lemma {:induction false} OrSplits(a: nat, b: nat, k: nat)
    ensures Low(BitOr(a, b), k) == BitOr(Low(a, k), Low(b, k))
    ensures Shr(BitOr(a, b), k) == BitOr(Shr(a, k), Shr(b, k))
  {
    if k > 0 {
      OrSplits(a / 2, b / 2, k - 1);
      assert BitOr(a, b) / 2 == BitOr(a / 2, b / 2);
      var low, low' := Low(a, k), Low(b, k);
      assert low / 2 == Low(a / 2, k - 1) && low' / 2 == Low(b / 2, k - 1);
      assert BitOr(low, low') / 2 == BitOr(low / 2, low' / 2);
    }
  }

  lemma {:induction false} OrBound(a: nat, b: nat, k: nat)
    requires a < Pow2(k) && b < Pow2(k)
    ensures BitOr(a, b) < Pow2(k)
  {
    if k > 0 {
      OrBound(a / 2, b / 2, k - 1);
    }
  }

  /** Bits that do not overlap add up. */
  lemma {:induction false} OrDisjoint(a: nat, x: nat, k: nat)
    requires a < Pow2(k)
    ensures BitOr(a, Shl(x, k)) == a + Shl(x, k)
  {
    if k == 0 {
      OrZeroLeft(x);
    } else {
      OrDisjoint(a / 2, x, k - 1);
      assert Shl(x, k) / 2 == Shl(x, k - 1);
    }
  }

  lemma {:induction false} OrZeroLeft(a: nat)
    ensures BitOr(0, a) == a
  {
    if a > 0 {
      OrZeroLeft(a / 2);
    }
  }

  lemma {:induction false} ShlAdd(x: nat, j: nat, k: nat)
    ensures Shl(x, j + k) == Shl(Shl(x, j), k)
  {
    if k > 0 {
      ShlAdd(x, j, k - 1);
    }
  }

  lemma {:induction false} ShrAdd(x: nat, j: nat, k: nat)
    ensures Shr(x, j + k) == Shr(Shr(x, j), k)
  {
    if j > 0 {
      ShrAdd(x / 2, j - 1, k);
    }
  }

  /** Shifting left multiplies the bound. */
  lemma {:induction false} ShlBound(x: nat, j: nat, k: nat)
    ensures Shl(x, k) < Pow2(j + k) <==> x < Pow2(j)
  {
    if k > 0 {
      ShlBound(x, j, k - 1);
    }
  }

  lemma {:induction false} PowPositive(n: nat)
    ensures Pow2(n) >= 1
  {
    if n > 0 {
      PowPositive(n - 1);
    }
  }

  lemma {:induction false} PowMono(j: nat, k: nat)
    requires j <= k
    ensures Pow2(j) <= Pow2(k)
  {
    if j < k {
      PowMono(j, k - 1);
    }
  }

  // ----- Bytes.

  /** Several steps at once. */
  lemma {:induction false} ShlSteps(x: nat)
    ensures Shl(x, 3) == 8 * x && Shl(x, 8) == 256 * x
  {
    assert Shl(x, 1) == 2 * x && Shl(x, 2) == 4 * x && Shl(x, 3) == 8 * x && Shl(x, 4) == 16 * x;
    assert Shl(x, 5) == 32 * x && Shl(x, 6) == 64 * x && Shl(x, 7) == 128 * x;
  }

  lemma {:induction false} PowSteps(k: nat)
    ensures Pow2(k + 3) == 8 * Pow2(k) && Pow2(k + 8) == 256 * Pow2(k)
  {
    assert Pow2(k + 1) == 2 * Pow2(k) && Pow2(k + 2) == 4 * Pow2(k) && Pow2(k + 3) == 8 * Pow2(k);
    assert Pow2(k + 4) == 16 * Pow2(k) && Pow2(k + 5) == 32 * Pow2(k);
    assert Pow2(k + 6) == 64 * Pow2(k) && Pow2(k + 7) == 128 * Pow2(k);
  }

  /** The low bits and the rest make up the whole. */
  lemma {:induction false} SplitAt(x: nat, k: nat)
    ensures x == Low(x, k) + Shl(Shr(x, k), k) && Low(x, k) < Pow2(k)
  {
    if k > 0 {
      SplitAt(x / 2, k - 1);
    }
  }

  lemma {:induction false} ByteSplit(x: nat)
    ensures Low(x, 8) == x % 256 && Shr(x, 8) == x / 256
  {
    hide Low, Shr, Shl;
    SplitAt(x, 8);
    ShlSteps(Shr(x, 8));
    PowValues();
  }

  /** Byte `i` of `x`, counted from the low end. */
  function Byte(x: nat, i: nat): (b: nat)
  {
    if i == 0 then x % 256 else Byte(x / 256, i - 1)
  }

  lemma {:induction false} OrBytes(a: nat, b: nat, i: nat)
    ensures Byte(BitOr(a, b), i) == BitOr(Byte(a, i), Byte(b, i))
  {
    OrSplits(a, b, 8);
    ByteSplit(a);
    ByteSplit(b);
    ByteSplit(BitOr(a, b));
    if i > 0 {
      OrBytes(a / 256, b / 256, i - 1);
    }
  }

  lemma {:induction false} ZeroBytes(i: nat)
    ensures Byte(0, i) == 0
  {
    if i > 0 {
      ZeroBytes(i - 1);
    }
  }

  lemma {:induction false} PowZero()
    ensures Pow2(0) == 1
  {
  }

  lemma {:induction false} PowValues()
    ensures Pow2(3) == 8 && Pow2(8) == 256 && Pow2(16) == 65536
  {
    PowSteps(0);
    PowSteps(8);
  }

  lemma {:induction false} ShiftWithinByte(x: nat, s: nat)
    requires x < 256 && s < 8
    ensures Shl(x, s) < 65536
  {
    PowValues();
    ShlBound(x, 8, s);
    PowMono(8 + s, 16);
  }

  lemma {:induction false} WordBytes(word: nat, i: nat)
    requires word < 65536
    ensures Byte(word, i) == if i == 0 then word % 256 else if i == 1 then word / 256 else 0
  {
    if i >= 2 {
      ZeroBytes(i - 2);
      assert Byte(word / 256, i - 1) == Byte(0, i - 2);
    }
  }

  /** A shifted byte spans two neighbouring bytes. */
  lemma {:induction false} ShiftedByte(x: nat, s: nat, i: nat)
    requires x < 256
    ensures var word := Shl(x, s % 8);
            && word < 65536
            && Byte(Shl(x, s), i) == if i == s / 8 then word % 256 else if i == s / 8 + 1 then word / 256 else 0
  {
    hide Shl;
    ShiftWithinByte(x, s % 8);
    if s < 8 {
      WordBytes(Shl(x, s), i);
    } else {
      ShlAdd(x, s - 8, 8);
      ShlSteps(Shl(x, s - 8));
      ShiftedByte(x, s - 8, if i > 0 then i - 1 else 0);
    }
  }

  /** The value of big-endian bytes. */
  function BigEndian(bytes: seq<nat>): nat {
    if |bytes| == 0 then 0 else 256 * BigEndian(bytes[..|bytes| - 1]) + bytes[|bytes| - 1]
  }

  lemma {:induction false} BigEndianBytes(bytes: seq<nat>, i: nat)
    requires forall k :: 0 <= k < |bytes| ==> bytes[k] < 256
    requires i < |bytes|
    ensures Byte(BigEndian(bytes), i) == bytes[|bytes| - 1 - i]
  {
    if i > 0 {
      BigEndianBytes(bytes[..|bytes| - 1], i - 1);
    }
  }

  lemma {:induction false} BigEndianBound(bytes: seq<nat>)
    requires forall k :: 0 <= k < |bytes| ==> bytes[k] < 256
    ensures BigEndian(bytes) < Pow2(8 * |bytes|)
  {
    if |bytes| > 0 {
      BigEndianBound(bytes[..|bytes| - 1]);
      PowByte(|bytes| - 1);
    }
  }

  lemma {:induction false} PowByte(n: nat)
    ensures Pow2(8 * (n + 1)) == 256 * Pow2(8 * n)
  {
    PowSteps(8 * n);
  }

  /** Bytes determine a value that fits in them. */
  lemma {:induction false} FromBytes(bytes: seq<nat>, v: nat)
    requires v < Pow2(8 * |bytes|)
    requires forall i :: 0 <= i < |bytes| ==> bytes[|bytes| - 1 - i] == Byte(v, i)
    ensures BigEndian(bytes) == v
  {
    if |bytes| > 0 {
      var front := bytes[..|bytes| - 1];
      PowByte(|bytes| - 1);
      forall i | 0 <= i < |front| ensures front[|front| - 1 - i] == Byte(v / 256, i) {
        assert bytes[|bytes| - 1 - (i + 1)] == Byte(v, i + 1);
      }
      assert bytes[|bytes| - 1 - 0] == Byte(v, 0);
      FromBytes(front, v / 256);
    }
  }

  lemma {:induction false} LowKeepsBits(x: nat, k: nat, j: nat)
    requires j < k
    ensures Shr(Low(x, k), j) % 2 == Shr(x, j) % 2
  {
    if j > 0 {
      assert Low(x, k) / 2 == Low(x / 2, k - 1);
      LowKeepsBits(x / 2, k - 1, j - 1);
    }
  }

  lemma {:induction false} ByteBit(x: nat, i: nat, j: nat)
    requires j < 8
    ensures Shr(x, 8 * i + j) % 2 == Shr(Byte(x, i), j) % 2
  {
    ByteSplit(x);
    if i == 0 {
      LowKeepsBits(x, 8, j);
    } else {
      ShrAdd(x, 8, 8 * (i - 1) + j);
      ByteBit(x / 256, i - 1, j);
    }
  }
}
