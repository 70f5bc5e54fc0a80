/** The packed `input_flags` element: program-libs/interface/src/tree_slot.rs. */
module InputFlags {
  import opened Bits
  import opened Field
  import opened Result

  const INPUT_TREES: nat := 5
  const MAX_TRANSACT_INPUTS: nat := 49

  datatype FlagsError = InvalidTransactShape | InputTreeIndexOutOfRange

  /** `or_input_flags_bits`: `flags |= value << shift` on a 32-byte big-endian element, refused when a bit
      falls off its end. */
  method OrInputFlagsBits(flags: array<nat>, value: nat, shift: nat) returns (r: Result<(), FlagsError>)
    requires flags.Length == 32 && value < 256
    requires forall i :: 0 <= i < 32 ==> flags[i] < 256
    modifies flags
    ensures forall i :: 0 <= i < 32 ==> flags[i] < 256
    ensures r.Ok? <==> shift < 256 && Shl(value, shift) < Pow2(256)
    ensures r.Ok? ==> BigEndian(flags[..]) == BitOr(BigEndian(old(flags[..])), Shl(value, shift))
    ensures r.Err? ==> r.error == InvalidTransactShape
  {
    hide Byte, BitOr, Pow2, Shl, BigEndian;
    ghost var before := flags[..];
    ShiftedByte(value, shift, 0);
    ShiftFits(value, shift);
    var word := Shl(value, shift % 8);
    var high, low := word / 256, word % 256;
    if shift / 8 >= 32 {
      return Err(InvalidTransactShape);
    }
    var lowIndex := 31 - shift / 8;
    ByteOrBound(flags[lowIndex], low);
    flags[lowIndex] := BitOr(flags[lowIndex], low);
    if high != 0 {
      if lowIndex == 0 {
        return Err(InvalidTransactShape);
      }
      ByteOrBound(flags[lowIndex - 1], high);
      flags[lowIndex - 1] := BitOr(flags[lowIndex - 1], high);
    }
    r := Ok(());
    OrIntoBytes(before, value, shift, flags[..]);
  }

  lemma {:induction false} ByteOrBound(a: nat, b: nat)
    requires a < 256 && b < 256
    ensures BitOr(a, b) < 256
  {
    PowValues();
    OrBound(a, b, 8);
  }

  /** When the two bytes of a shifted byte fit below bit 256. */
  lemma {:induction false} ShiftFits(value: nat, shift: nat)
    requires value < 256
    ensures shift < 256 ==> (Shl(value, shift) < Pow2(256) <==> shift / 8 < 31 || Shl(value, shift % 8) < 256)
  {
    if shift < 256 {
      var k := shift - shift % 8;
      ShlAdd(value, shift % 8, k);
      ShlBound(Shl(value, shift % 8), 256 - k, k);
      PowValues();
      if shift / 8 < 31 {
        ShiftWithinByte(value, shift % 8);
        PowMono(16, 256 - k);
      }
    }
  }

  lemma {:induction false} OrIntoBytes(before: seq<nat>, value: nat, shift: nat, after: seq<nat>)
    requires |before| == |after| == 32 && value < 256 && shift < 256 && Shl(value, shift) < Pow2(256)
    requires forall i :: 0 <= i < 32 ==> before[i] < 256
    requires var word, l := Shl(value, shift % 8), 31 - shift / 8;
             forall i :: 0 <= i < 32 ==>
               after[i] == if i == l then BitOr(before[i], word % 256)
                           else if i == l - 1 && word / 256 != 0 then BitOr(before[i], word / 256)
                           else before[i]
    ensures BigEndian(after) == BitOr(BigEndian(before), Shl(value, shift))
  {
    hide Byte, BitOr, Pow2, Shl, BigEndian;
    var v, x := BigEndian(before), Shl(value, shift);
    BigEndianBound(before);
    OrBound(v, x, 256);
    forall i | 0 <= i < 32 ensures after[32 - 1 - i] == Byte(BitOr(v, x), i) {
      OrBytes(v, x, i);
      BigEndianBytes(before, i);
      ShiftedByte(value, shift, i);
      OrZero(before[31 - i]);
    }
    FromBytes(after, BitOr(v, x));
  }

  // ----- The whole element.

  /** Three bits per index, the first one lowest. */
  function Fields(indexes: seq<nat>): nat {
    if |indexes| == 0 then 0 else indexes[0] + 8 * Fields(indexes[1..])
  }

  function Packed(allowDummyInputs: bool, indexes: seq<nat>): nat {
    (if allowDummyInputs then 1 else 0) + 2 * Fields(indexes)
  }

  /** What the circuit reads back: bit 0, then `n` groups of three bits. */
  function Unpacked(v: nat, n: nat): (bool, seq<nat>) {
    (v % 2 == 1, UnpackedFields(v / 2, n))
  }

  function UnpackedFields(v: nat, n: nat): seq<nat> {
    if n == 0 then [] else [v % 8] + UnpackedFields(v / 8, n - 1)
  }

  ghost predicate ValidIndexes(indexes: seq<nat>) {
    forall i :: 0 <= i < |indexes| ==> indexes[i] < INPUT_TREES
  }

  /** The circuit reads back exactly what was packed. */
  lemma {:induction false} UnpackInvertsPack(allowDummyInputs: bool, indexes: seq<nat>)
    requires ValidIndexes(indexes)
    ensures Unpacked(Packed(allowDummyInputs, indexes), |indexes|) == (allowDummyInputs, indexes)
  {
    UnpackFields(indexes);
  }

  lemma {:induction false} UnpackFields(indexes: seq<nat>)
    requires ValidIndexes(indexes)
    ensures UnpackedFields(Fields(indexes), |indexes|) == indexes
  {
    if |indexes| > 0 {
      UnpackFields(indexes[1..]);
    }
  }

  /** Bit 0 is the policy, and input `i`'s index is the three bits from bit `1 + 3 * i`. */
  lemma {:induction false} PackedAt(allowDummyInputs: bool, indexes: seq<nat>, i: nat)
    requires ValidIndexes(indexes) && i < |indexes|
    ensures Packed(allowDummyInputs, indexes) % 2 == (if allowDummyInputs then 1 else 0)
    ensures Shr(Packed(allowDummyInputs, indexes), 1 + 3 * i) % 8 == indexes[i]
  {
    hide Shr;
    var v := Packed(allowDummyInputs, indexes);
    ShrAdd(v, 1, 3 * i);
    ShrOnce(v);
    FieldsShift(indexes, i);
    assert indexes[i..][0] == indexes[i];
  }

  lemma {:induction false} ShrOnce(x: nat)
    ensures Shr(x, 1) == x / 2 && Shr(x, 3) == x / 8
  {
    assert Shr(x / 8, 0) == x / 8;
    assert Shr(x / 4, 1) == Shr(x / 4 / 2, 0);
    assert Shr(x / 2, 2) == Shr(x / 2 / 2, 1);
  }

  lemma {:induction false} FieldsShift(indexes: seq<nat>, i: nat)
    requires ValidIndexes(indexes) && i <= |indexes|
    ensures Shr(Fields(indexes), 3 * i) == Fields(indexes[i..])
  {
    if i == 0 {
      assert indexes[0..] == indexes;
    } else {
      ShrAdd(Fields(indexes), 3, 3 * (i - 1));
      ShrOnce(Fields(indexes));
      FieldsShift(indexes[1..], i - 1);
      assert indexes[1..][i - 1..] == indexes[i..];
    }
  }

  lemma {:induction false} FieldsExtend(indexes: seq<nat>, x: nat)
    ensures Fields(indexes + [x]) == Fields(indexes) + Shl(x, 3 * |indexes|)
  {
    if |indexes| > 0 {
      var rest := indexes[1..];
      assert (indexes + [x])[1..] == rest + [x];
      FieldsExtend(rest, x);
      ShlAdd(x, 3 * |rest|, 3);
      ShlSteps(Shl(x, 3 * |rest|));
    }
  }

  lemma {:induction false} FieldsBound(indexes: seq<nat>)
    requires ValidIndexes(indexes)
    ensures Fields(indexes) < Pow2(3 * |indexes|)
  {
    if |indexes| > 0 {
      FieldsBound(indexes[1..]);
      PowSteps(3 * (|indexes| - 1));
    }
  }

  /** Each `or` adds its index above all the bits before it. */
  lemma {:induction false} PackStep(allowDummyInputs: bool, indexes: seq<nat>, x: nat)
    requires ValidIndexes(indexes) && x < INPUT_TREES && |indexes| < MAX_TRANSACT_INPUTS
    ensures var v, shift := Packed(allowDummyInputs, indexes), 1 + 3 * |indexes|;
            && Packed(allowDummyInputs, indexes + [x]) == BitOr(v, Shl(x, shift))
            && shift < 256 && Shl(x, shift) < Pow2(256)
  {
    hide Fields, Shl, BitOr;
    var v, shift := Packed(allowDummyInputs, indexes), 1 + 3 * |indexes|;
    FieldsBound(indexes);
    ShlAdd(x, 3 * |indexes|, 1);
    ShlOnce(Shl(x, 3 * |indexes|));
    FieldsExtend(indexes, x);
    OrDisjoint(v, x, shift);
    ShlBound(x, 3, shift);
    PowMono(shift + 3, 256);
    PowValues();
  }

  lemma {:induction false} ShlOnce(x: nat)
    ensures Shl(x, 1) == 2 * x
  {
  }

  /** The first input that cannot be packed decides the error. */
  ghost function FirstError(indexes: seq<nat>, from: nat): Result<(), FlagsError>
    requires from <= |indexes|
    decreases |indexes| - from
  {
    if from == |indexes| then Ok(())
    else if from >= MAX_TRANSACT_INPUTS then Err(InvalidTransactShape)
    else if indexes[from] >= INPUT_TREES then Err(InputTreeIndexOutOfRange)
    else FirstError(indexes, from + 1)
  }

  /** `pack_input_flags`. */
  method PackInputFlags(allowDummyInputs: bool, treeIndexes: seq<nat>) returns (r: Result<seq<nat>, FlagsError>)
    requires forall i :: 0 <= i < |treeIndexes| ==> treeIndexes[i] < 256
    ensures r.Ok? <==> |treeIndexes| <= MAX_TRANSACT_INPUTS && ValidIndexes(treeIndexes)
    ensures r.Ok? ==> |r.value| == 32 && forall i :: 0 <= i < 32 ==> r.value[i] < 256
    ensures r.Ok? ==> BigEndian(r.value) == Packed(allowDummyInputs, treeIndexes)
    ensures r.Err? ==> FirstError(treeIndexes, 0) == Err(r.error)
  {
    hide Packed, BitOr, Pow2, Shl, BigEndian;
    var flags := new nat[32](_ => 0);
    BlankFlags(allowDummyInputs, flags[..]);
    var o := OrInputFlagsBits(flags, if allowDummyInputs then 1 else 0, 0);
    var index := 0;
    while index < |treeIndexes|
      invariant 0 <= index <= |treeIndexes| && index <= MAX_TRANSACT_INPUTS
      invariant ValidIndexes(treeIndexes[..index])
      invariant FirstError(treeIndexes, 0) == FirstError(treeIndexes, index)
      invariant forall i :: 0 <= i < 32 ==> flags[i] < 256
      invariant BigEndian(flags[..]) == Packed(allowDummyInputs, treeIndexes[..index])
    {
      if index >= MAX_TRANSACT_INPUTS {
        return Err(InvalidTransactShape);
      }
      var treeIndex := treeIndexes[index];
      if treeIndex >= INPUT_TREES {
        return Err(InputTreeIndexOutOfRange);
      }
      PackStep(allowDummyInputs, treeIndexes[..index], treeIndex);
      assert treeIndexes[..index] + [treeIndex] == treeIndexes[..index + 1];
      o := OrInputFlagsBits(flags, treeIndex, 1 + 3 * index);
      index := index + 1;
    }
    assert treeIndexes[..index] == treeIndexes;
    r := Ok(flags[..]);
  }

  lemma {:induction false} BlankFlags(allowDummyInputs: bool, blank: seq<nat>)
    requires |blank| == 32 && forall i :: 0 <= i < 32 ==> blank[i] == 0
    ensures var bit := if allowDummyInputs then 1 else 0;
            && BitOr(BigEndian(blank), Shl(bit, 0)) == Packed(allowDummyInputs, [])
            && Shl(bit, 0) < Pow2(256)
  {
    ZeroValue(blank);
    OrZeroLeft(if allowDummyInputs then 1 else 0);
    PowMono(1, 256);
  }

  lemma {:induction false} ZeroValue(blank: seq<nat>)
    requires forall i :: 0 <= i < |blank| ==> blank[i] == 0
    ensures BigEndian(blank) == 0
  {
    if |blank| > 0 {
      ZeroValue(blank[..|blank| - 1]);
    }
  }

  /** The element is a canonical scalar, with room to spare. */
  lemma {:induction false} PackedIsCanonical(allowDummyInputs: bool, indexes: seq<nat>)
    requires ValidIndexes(indexes) && |indexes| <= MAX_TRANSACT_INPUTS
    ensures Packed(allowDummyInputs, indexes) < Pow2(148) && Canonical(Packed(allowDummyInputs, indexes))
  {
    FieldsBound(indexes);
    PowMono(1 + 3 * |indexes|, 148);
    SmallPower();
  }

  lemma {:induction false} SmallPower()
    ensures Pow2(148) <= BN254_MODULUS
  {
    hide Pow2;
    PowMono(148, 152);
    TenBytes();
    PowByte(10); PowByte(11); PowByte(12); PowByte(13); PowByte(14); PowByte(15); PowByte(16); PowByte(17); PowByte(18);
  }

  lemma {:induction false} TenBytes()
    ensures Pow2(80) == 0x1_0000_0000_0000_0000_0000
  {
    hide Pow2;
    PowValues();
    PowByte(2); PowByte(3); PowByte(4); PowByte(5); PowByte(6); PowByte(7); PowByte(8); PowByte(9);
  }

  /** Bit `b` of the element is bit `b % 8` of byte `31 - b / 8`. */
  lemma {:induction false} BitOfElement(flags: seq<nat>, b: nat)
    requires |flags| == 32 && b < 256 && forall i :: 0 <= i < 32 ==> flags[i] < 256
    ensures Shr(BigEndian(flags), b) % 2 == Shr(flags[31 - b / 8], b % 8) % 2
  {
    hide Shr, BigEndian, Byte;
    BigEndianBytes(flags, b / 8);
    ByteBit(BigEndian(flags), b / 8, b % 8);
  }
}
