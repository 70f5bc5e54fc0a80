/** Bytes and their little-endian numbers. */
module ByteSeq {
  type Byte = b: nat | b < 256
  type Bytes = seq<Byte>

  /** `256` to the power `k`. */
  function Range(k: nat): nat {
    if k == 0 then 1 else 256 * Range(k - 1)
  }

  /** `to_le_bytes` of a `k`-byte number. */
  function LittleEndian(n: nat, k: nat): (bytes: Bytes)
    ensures |bytes| == k
  {
    if k == 0 then [] else [n % 256] + LittleEndian(n / 256, k - 1)
  }

  /** `from_le_bytes`. */
  function LittleEndianValue(bytes: Bytes): nat {
    if |bytes| == 0 then 0 else bytes[0] + 256 * LittleEndianValue(bytes[1..])
  }

  lemma {:induction false} ValueOfLittleEndian(n: nat, k: nat)
    requires n < Range(k)
    ensures LittleEndianValue(LittleEndian(n, k)) == n
  {
    if k > 0 {
      ValueOfLittleEndian(n / 256, k - 1);
      assert LittleEndian(n, k)[1..] == LittleEndian(n / 256, k - 1);
    }
  }

  lemma {:induction false} LittleEndianOfValue(bytes: Bytes)
    ensures LittleEndianValue(bytes) < Range(|bytes|)
    ensures LittleEndian(LittleEndianValue(bytes), |bytes|) == bytes
  {
    if |bytes| > 0 {
      LittleEndianOfValue(bytes[1..]);
      assert [bytes[0]] + bytes[1..] == bytes;
    }
  }

  /** A `u32`, low byte first. */
  lemma {:induction false} LittleEndianOfFour(n: nat)
    ensures LittleEndian(n, 4) == [n % 256, n / 0x100 % 256, n / 0x1_0000 % 256, n / 0x100_0000 % 256]
  {
    assert LittleEndian(n / 0x100_0000, 1) == [n / 0x100_0000 % 256];
    assert LittleEndian(n / 0x1_0000, 2) == [n / 0x1_0000 % 256] + LittleEndian(n / 0x100_0000, 1);
    assert LittleEndian(n / 0x100, 3) == [n / 0x100 % 256] + LittleEndian(n / 0x1_0000, 2);
  }

  /** A `u64` is its low half, then its high half. */
  lemma {:induction false} LittleEndianOfEight(n: nat)
    ensures LittleEndian(n, 8) == LittleEndian(n, 4) + LittleEndian(n / 0x1_0000_0000, 4)
  {
    hide LittleEndian;
    var n1, n2, n3, n4 := n / 0x100, n / 0x1_0000, n / 0x100_0000, n / 0x1_0000_0000;
    LittleEndianTail(n, 4, 4);
    LittleEndianTail(n1, 3, 4);
    LittleEndianTail(n2, 2, 4);
    LittleEndianTail(n3, 1, 4);
    LittleEndianNone(n4);
    assert LittleEndian(n3, 5) == LittleEndian(n3, 1) + LittleEndian(n4, 4);
    assert LittleEndian(n2, 6) == LittleEndian(n2, 2) + LittleEndian(n4, 4);
    assert LittleEndian(n1, 7) == LittleEndian(n1, 3) + LittleEndian(n4, 4);
  }

  lemma {:induction false} LittleEndianNone(n: nat)
    ensures LittleEndian(n, 0) == []
  {
  }

  lemma {:induction false} LittleEndianTail(n: nat, j: nat, k: nat)
    requires j > 0
    ensures LittleEndian(n, j + k) == [n % 256] + LittleEndian(n / 256, j - 1 + k)
    ensures LittleEndian(n, j) == [n % 256] + LittleEndian(n / 256, j - 1)
  {
  }
}
