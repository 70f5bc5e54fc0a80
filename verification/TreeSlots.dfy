/** The public-input chain over tree slots: program-libs/interface/src/tree_slot.rs, with the binary right
fold of program-libs/hasher/src/hash_chain.rs. */
module TreeSlots {
  import opened Field
  import opened Result

  datatype Slot = Slot(id: Felt, utxoRoot: Felt, nullifierRoot: Felt)

  const ZERO_SLOT := Slot(0, 0, 0)

  datatype SlotsError = InvalidInputLength(actual: nat, expected: nat)

  function SlotHash(h: Hash3, slot: Slot): Felt {
    h(slot.id, slot.utxoRoot, slot.nullifierRoot)
  }

  function Hashes(h: Hash3, slots: seq<Slot>): seq<Felt> {
    seq(|slots|, i requires 0 <= i < |slots| => SlotHash(h, slots[i]))
  }

  /** The binary right fold, read from the left. */
  function RightChain(h: Hash2, inputs: seq<Felt>): Felt {
    if |inputs| == 0 then 0
    else if |inputs| == 1 then inputs[0]
    else h(inputs[0], RightChain(h, inputs[1..]))
  }

  /** `ZERO_TREE_SLOT_SUFFIX_CHAINS[m - 1]`, by its recurrence. */
  function ZeroSlots(h2: Hash2, h3: Hash3, m: nat): Felt
    requires m > 0
  {
    var zero := SlotHash(h3, ZERO_SLOT);
    if m == 1 then zero else h2(zero, ZeroSlots(h2, h3, m - 1))
  }

  /** `create_right_hash_chain_from_slice`, which walks from the right. */
  method CreateRightHashChain(h: Hash2, inputs: seq<Felt>) returns (chain: Felt)
    ensures chain == RightChain(h, inputs)
  {
    if |inputs| == 0 {
      return 0;
    }
    var i := |inputs| - 1;
    chain := inputs[i];
    while i > 0
      invariant 0 <= i < |inputs| && chain == RightChain(h, inputs[i..])
    {
      i := i - 1;
      assert inputs[i..][1..] == inputs[i + 1..];
      chain := h(inputs[i], chain);
    }
  }

  /** `tree_slots_hash_chain`. */
  method TreeSlotsHashChain(h2: Hash2, h3: Hash3, slots: seq<Slot>) returns (chain: Felt)
    ensures chain == RightChain(h2, Hashes(h3, slots))
  {
    var hashes := new Felt[|slots|](_ => 0);
    var i := 0;
    while i < |slots|
      invariant 0 <= i <= |slots|
      invariant forall k :: 0 <= k < i ==> hashes[k] == SlotHash(h3, slots[k])
    {
      hashes[i] := SlotHash(h3, slots[i]);
      i := i + 1;
    }
    assert hashes[..] == Hashes(h3, slots);
    chain := CreateRightHashChain(h2, hashes[..]);
  }

  function Padded(populated: seq<Slot>, slotCount: nat): seq<Slot>
    requires |populated| <= slotCount
  {
    populated + seq(slotCount - |populated|, _ => ZERO_SLOT)
  }

  /** The table entry is the chain over the unused slots. */
  lemma {:induction false} ZeroSlotsIsChain(h2: Hash2, h3: Hash3, slots: seq<Slot>)
    requires |slots| > 0 && forall i :: 0 <= i < |slots| ==> slots[i] == ZERO_SLOT
    ensures RightChain(h2, Hashes(h3, slots)) == ZeroSlots(h2, h3, |slots|)
  {
    if |slots| > 1 {
      ZeroSlotsIsChain(h2, h3, slots[1..]);
      assert Hashes(h3, slots)[1..] == Hashes(h3, slots[1..]);
    }
  }

  /** `populated_tree_slots_hash_chain`: hashing only the populated slots gives the chain over all of
      them, for any slot count. */
  method PopulatedTreeSlotsHashChain(h2: Hash2, h3: Hash3, populated: seq<Slot>, slotCount: nat)
    returns (r: Result<Felt, SlotsError>, ghost calls: nat)
    ensures r.Ok? <==> 1 <= |populated| <= slotCount
    ensures r.Ok? ==> r.value == RightChain(h2, Hashes(h3, Padded(populated, slotCount)))
    ensures r.Ok? ==> calls == |populated| + (if |populated| < slotCount then |populated| else |populated| - 1)
    ensures r.Err? ==> r.error == InvalidInputLength(|populated|, slotCount)
  {
    calls := 0;
    var count := |populated|;
    if count == 0 || count > slotCount {
      return Err(InvalidInputLength(count, slotCount)), calls;
    }
    ghost var all := Padded(populated, slotCount);
    var chain, end;
    if count < slotCount {
      chain := ZeroSlots(h2, h3, slotCount - count);
      end := count;
      ZeroSlotsIsChain(h2, h3, all[count..]);
    } else {
      chain := SlotHash(h3, populated[count - 1]);
      calls := 1;
      end := count - 1;
    }
    var i := end;
    while i > 0
      invariant 0 <= i <= end < slotCount && chain == RightChain(h2, Hashes(h3, all[i..]))
      invariant calls == count - end + 2 * (end - i)
    {
      i := i - 1;
      assert Hashes(h3, all[i..])[1..] == Hashes(h3, all[i + 1..]);
      chain := h2(SlotHash(h3, populated[i]), chain);
      calls := calls + 2;
    }
    assert all[0..] == all;
    r := Ok(chain);
  }

  /** The chain over the two hashes alone, for one slot and for a slot before others. */
  lemma {:induction false} SlotsChain(
    h2: Hash2, h3: Hash3, id: Felt, utxoRoot: Felt, nullifierRoot: Felt, rest: seq<Slot>)
    ensures RightChain(h2, Hashes(h3, [Slot(id, utxoRoot, nullifierRoot)])) == h3(id, utxoRoot, nullifierRoot)
    ensures ZeroSlots(h2, h3, 1) == h3(0, 0, 0)
    ensures |rest| > 0 ==>
              RightChain(h2, Hashes(h3, [Slot(id, utxoRoot, nullifierRoot)] + rest))
              == h2(h3(id, utxoRoot, nullifierRoot), RightChain(h2, Hashes(h3, rest)))
  {
    var slots := [Slot(id, utxoRoot, nullifierRoot)] + rest;
    assert Hashes(h3, slots)[1..] == Hashes(h3, rest);
  }
}
