/** Selecting cached inputs for a proof: `cache_read_selection` of program-tests/test-utils/src/transact.rs
and `cached_input_fields` of program-libs/interface/src/state/cache.rs. */
module CacheRead {
  import opened Bits
  import opened Field
  import opened HashChain
  import opened Result
  import opened ZeroSuffix

  const CACHE_CAPACITY: nat := 36

  datatype Read = Read(slot: nat, hash: Felt)

  datatype SelectionError = SlotOutOfRange | Hasher(error: HasherError)

  datatype Selection = Selection(
    readBitmap: nat, treeField: Felt, chain: Felt, readHashes: seq<Felt>, isCached: seq<bool>, readIndex: seq<nat>)

  predicate Bit(x: nat, i: nat) {
    Shr(x, i) % 2 == 1
  }

  /** `(x & ((1 << n) - 1)).count_ones()`: how many of the low `n` bits are set. */
  function Rank(x: nat, n: nat): nat {
    Popcount(Low(x, n))
  }

  lemma {:induction false} RankUnfolds(x: nat, n: nat)
    requires n > 0
    ensures Rank(x, n) == x % 2 + Rank(x / 2, n - 1)
  {
    assert Low(x, n) / 2 == Low(x / 2, n - 1);
  }

  lemma {:induction false} RankStep(x: nat, n: nat)
    ensures Rank(x, n + 1) == Rank(x, n) + (if Bit(x, n) then 1 else 0)
  {
    RankUnfolds(x, n + 1);
    if n > 0 {
      RankUnfolds(x, n);
      RankStep(x / 2, n - 1);
    }
  }

  lemma {:induction false} BitOfOr(a: nat, b: nat, i: nat)
    ensures Bit(BitOr(a, b), i) <==> Bit(a, i) || Bit(b, i)
  {
    OrSplits(a, b, i);
  }

  lemma {:induction false} BitOfOne(s: nat, i: nat)
    ensures Bit(Shl(1, s), i) <==> i == s
  {
    if i > 0 {
      if s > 0 {
        assert Shl(1, s) / 2 == Shl(1, s - 1);
        BitOfOne(s - 1, i - 1);
      } else {
        NoBits(i - 1);
      }
    }
  }

  lemma {:induction false} NoBits(i: nat)
    ensures !Bit(0, i) && Rank(0, i) == 0
  {
    if i > 0 {
      NoBits(i - 1);
    }
  }

  /** Setting one bit adds at most one. */
  lemma {:induction false} RankAfterSet(x: nat, s: nat, n: nat)
    ensures Rank(BitOr(x, Shl(1, s)), n) <= Rank(x, n) + (if s < n then 1 else 0)
  {
    if n > 0 {
      RankAfterSet(x, s, n - 1);
      RankStep(x, n - 1);
      RankStep(BitOr(x, Shl(1, s)), n - 1);
      BitOfOr(x, Shl(1, s), n - 1);
      BitOfOne(s, n - 1);
    }
  }

  /** The hashes of the set slots below `n`, in slot order. */
  function Selected(slots: seq<Felt>, bitmap: nat, n: nat): seq<Felt>
    requires n <= |slots|
  {
    if n == 0 then []
    else Selected(slots, bitmap, n - 1) + (if Bit(bitmap, n - 1) then [slots[n - 1]] else [])
  }

  /** A set slot's hash is at its rank. */
  lemma {:induction false} SelectedAtRank(slots: seq<Felt>, bitmap: nat, n: nat, s: nat)
    requires n <= |slots|
    ensures |Selected(slots, bitmap, n)| == Rank(bitmap, n)
    ensures s < n && Bit(bitmap, s) ==>
              Rank(bitmap, s) < Rank(bitmap, n) && Selected(slots, bitmap, n)[Rank(bitmap, s)] == slots[s]
  {
    if n > 0 {
      RankStep(bitmap, n - 1);
      SelectedAtRank(slots, bitmap, n - 1, s);
    }
  }

  /** `Vec::resize` with zeros. */
  function Resized(xs: seq<Felt>, n: nat): seq<Felt> {
    if |xs| >= n then xs[..n] else xs + seq(n - |xs|, _ => 0)
  }

  /** The hash that the last read of slot `s` gave it. */
  function SlotHash(inputs: seq<Option<Read>>, s: nat): Felt {
    if |inputs| == 0 then 0
    else
      var read := inputs[|inputs| - 1];
      if read.Some? && read.value.slot == s then read.value.hash else SlotHash(inputs[..|inputs| - 1], s)
  }

  predicate Reads(inputs: seq<Option<Read>>, s: nat) {
    exists i :: 0 <= i < |inputs| && inputs[i].Some? && inputs[i].value.slot == s
  }

  predicate InRange(inputs: seq<Option<Read>>) {
    forall i :: 0 <= i < |inputs| && inputs[i].Some? ==> inputs[i].value.slot < CACHE_CAPACITY
  }

  /** `empty_cached_input_fields`. */
  method EmptyCachedInputFields(h: Hash4, inputCount: nat) returns (r: Result<(Felt, Felt), HasherError>)
    ensures r.Ok? <==> inputCount <= 3 * GROUPS + 1
    ensures r.Ok? ==> r.value == (0, RightChain(h, seq(inputCount, _ => 0)))
    ensures r.Err? ==> r.error == InvalidInputLength(GROUPS, DivCeil(inputCount - 1, 3))
  {
    var groups := DivCeil(if inputCount == 0 then 0 else inputCount - 1, 3);
    if groups > GROUPS {
      return Err(InvalidInputLength(GROUPS, groups));
    }
    ghost var zeros := seq(inputCount, _ => 0);
    if inputCount > 0 {
      TableIsFoldOverZeros(h, zeros[..inputCount - 1]);
    }
    r := Ok((0, Table(h, groups)));
  }

  /** `cached_input_fields`. */
  method CachedInputFields(h: Hash4, readBitmap: nat, treeId: Felt, slots: seq<Felt>, inputCount: nat)
    returns (r: Result<(Felt, Felt), HasherError>)
    requires |slots| == CACHE_CAPACITY
    ensures readBitmap == 0 ==> (r.Ok? <==> inputCount <= 3 * GROUPS + 1)
    ensures readBitmap != 0 ==>
              (r.Ok? <==> Shr(readBitmap, CACHE_CAPACITY) == 0 && Popcount(readBitmap) <= inputCount <= MAX_WIDTH)
    ensures readBitmap != 0 && (Shr(readBitmap, CACHE_CAPACITY) != 0 || Popcount(readBitmap) > inputCount) ==>
              r == Err(InvalidInputLength(inputCount, Popcount(readBitmap)))
    ensures r.Ok? ==> r.value.0 == (if readBitmap == 0 then 0 else treeId)
    ensures r.Ok? ==> r.value.1 == RightChain(h, Resized(Selected(slots, readBitmap, CACHE_CAPACITY), inputCount))
  {
    hide RightChain, Selected, Rank;
    if readBitmap == 0 {
      NothingSelected(slots, CACHE_CAPACITY);
      r := EmptyCachedInputFields(h, inputCount);
      assert [] + seq(inputCount, _ => 0) == seq(inputCount, _ => 0);
      assert inputCount == 0 ==> Resized([], inputCount) == seq(inputCount, _ => 0);
      return;
    }
    var readCount := Popcount(readBitmap);
    if Shr(readBitmap, CACHE_CAPACITY) != 0 || readCount > inputCount {
      return Err(InvalidInputLength(inputCount, readCount));
    }
    var selected := Selected(slots, readBitmap, CACHE_CAPACITY);
    SelectedAtRank(slots, readBitmap, CACHE_CAPACITY, 0);
    AllBelow(readBitmap, CACHE_CAPACITY);
    var chain;
    ghost var calls;
    chain, calls := CreatePaddedRightHashChain4(h, selected, inputCount);
    if chain.Err? {
      return Err(chain.error);
    }
    assert Resized(selected, inputCount) == selected + seq(inputCount - |selected|, _ => 0);
    r := Ok((treeId, chain.value));
  }

  lemma {:induction false} NothingSelected(slots: seq<Felt>, n: nat)
    requires n <= |slots|
    ensures Selected(slots, 0, n) == []
  {
    if n > 0 {
      NoBits(n - 1);
      NothingSelected(slots, n - 1);
    }
  }

  lemma {:induction false} AllBelow(x: nat, n: nat)
    requires Shr(x, n) == 0
    ensures Rank(x, n) == Popcount(x)
  {
    SplitAt(x, n);
    ShlZero(n);
  }

  lemma {:induction false} ShlZero(n: nat)
    ensures Shl(0, n) == 0
  {
    if n > 0 {
      ShlZero(n - 1);
    }
  }

  /** The loop's state: each slot holds its last read, the bitmap marks the slots read, and there are no
      more of them than reads. */
  ghost predicate Gathered(inputs: seq<Option<Read>>, slots: seq<Felt>, bitmap: nat) {
    && |slots| == CACHE_CAPACITY
    && (forall s :: 0 <= s < CACHE_CAPACITY ==> slots[s] == SlotHash(inputs, s))
    && (forall s: nat :: Bit(bitmap, s) <==> Reads(inputs, s))
    && Rank(bitmap, CACHE_CAPACITY) <= |inputs| && Shr(bitmap, CACHE_CAPACITY) == 0
  }

  lemma {:induction false} GatherOne(inputs: seq<Option<Read>>, read: Option<Read>, slots: seq<Felt>, bitmap: nat)
    requires Gathered(inputs, slots, bitmap) && InRange(inputs + [read])
    ensures read.None? ==> Gathered(inputs + [read], slots, bitmap)
    ensures read.Some? ==>
              && read.value.slot < CACHE_CAPACITY
              && Gathered(inputs + [read], slots[read.value.slot := read.value.hash],
                          BitOr(bitmap, Shl(1, read.value.slot)))
  {
    hide BitOr, Shl, Shr, Rank, Bit;
    var all := inputs + [read];
    assert all[..|inputs|] == inputs && all[|inputs|] == read;
    forall s: nat ensures Reads(all, s) <==> Reads(inputs, s) || (read.Some? && read.value.slot == s) {
      if Reads(inputs, s) {
        var i :| 0 <= i < |inputs| && inputs[i].Some? && inputs[i].value.slot == s;
        assert all[i] == inputs[i];
      }
    }
    if read.Some? {
      var slot := read.value.slot;
      RankAfterSet(bitmap, slot, CACHE_CAPACITY);
      HighBits(bitmap, slot, CACHE_CAPACITY);
      forall s: nat ensures Bit(BitOr(bitmap, Shl(1, slot)), s) <==> Bit(bitmap, s) || s == slot {
        BitOfOr(bitmap, Shl(1, slot), s);
        BitOfOne(slot, s);
      }
    }
  }

  lemma {:induction false} HighBits(x: nat, s: nat, n: nat)
    requires Shr(x, n) == 0 && s < n
    ensures Shr(BitOr(x, Shl(1, s)), n) == 0
  {
    OrSplits(x, Shl(1, s), n);
    ShiftedOut(s, n);
  }

  lemma {:induction false} ShiftedOut(s: nat, n: nat)
    requires s < n
    ensures Shr(Shl(1, s), n) == 0
  {
    if s > 0 {
      assert Shl(1, s) / 2 == Shl(1, s - 1);
      ShiftedOut(s - 1, n - 1);
    } else {
      ShrZero(n - 1);
    }
  }

  lemma {:induction false} ShrZero(n: nat)
    ensures Shr(0, n) == 0
  {
    if n > 0 {
      ShrZero(n - 1);
    }
  }

  lemma {:induction false} NothingGathered(slots: seq<Felt>)
    requires |slots| == CACHE_CAPACITY && forall s :: 0 <= s < CACHE_CAPACITY ==> slots[s] == 0
    ensures Gathered([], slots, 0)
  {
    ShrZero(CACHE_CAPACITY);
    forall s: nat ensures !Bit(0, s) && Rank(0, s) == 0 {
      NoBits(s);
    }
  }

  /** What the proof is given: every cached read finds the hash of its slot at its index, nothing is cut
      off, the rest is zero, and the published chain is the fold over exactly that list. */
  ghost predicate Selects(h: Hash4, treeId: Felt, inputs: seq<Option<Read>>, s: Selection) {
    && |s.readHashes| == |s.readIndex| == |s.isCached| == |inputs|
    && s.chain == RightChain(h, s.readHashes)
    && s.treeField == (if s.readBitmap == 0 then 0 else treeId)
    && (forall slot: nat :: Bit(s.readBitmap, slot) <==> Reads(inputs, slot))
    && (forall i :: 0 <= i < |inputs| ==>
          && s.isCached[i] == inputs[i].Some?
          && (inputs[i].None? ==> s.readIndex[i] == 0)
          && (inputs[i].Some? ==>
                && s.readIndex[i] < Popcount(s.readBitmap) <= |inputs|
                && s.readHashes[s.readIndex[i]] == SlotHash(inputs, inputs[i].value.slot)))
    && (forall k :: Popcount(s.readBitmap) <= k < |inputs| ==> s.readHashes[k] == 0)
  }

  ghost predicate NoneCached(inputs: seq<Option<Read>>) {
    forall i :: 0 <= i < |inputs| ==> inputs[i].None?
  }

  /** `cache_read_selection`. */
  method CacheReadSelection(h: Hash4, treeId: Felt, inputs: seq<Option<Read>>)
    returns (r: Result<Selection, SelectionError>)
    ensures r.Ok? <==> InRange(inputs) && (|inputs| <= MAX_WIDTH || (NoneCached(inputs) && |inputs| <= 3 * GROUPS + 1))
    ensures r.Ok? ==> Selects(h, treeId, inputs, r.value)
    ensures r == Err(SlotOutOfRange) <==> !InRange(inputs)
  {
    hide Gathered, RightChain, Selected, Rank, BitOr, Shl, Popcount, Selects;
    var slots := new Felt[CACHE_CAPACITY](_ => 0);
    var readBitmap := 0;
    var i := 0;
    NothingGathered(slots[..]);
    while i < |inputs|
      invariant 0 <= i <= |inputs| && InRange(inputs[..i])
      invariant Gathered(inputs[..i], slots[..], readBitmap)
    {
      var read := inputs[i];
      assert inputs[..i + 1] == inputs[..i] + [read];
      if read.Some? {
        if read.value.slot >= CACHE_CAPACITY {
          return Err(SlotOutOfRange);
        }
        GatherOne(inputs[..i], read, slots[..], readBitmap);
        slots[read.value.slot] := read.value.hash;
        readBitmap := BitOr(readBitmap, Shl(1, read.value.slot));
      } else {
        GatherOne(inputs[..i], read, slots[..], readBitmap);
      }
      i := i + 1;
    }
    assert inputs[..i] == inputs;
    GatheredFits(inputs, slots[..], readBitmap);
    var publicFields := CachedInputFields(h, readBitmap, treeId, slots[..], |inputs|);
    if publicFields.Err? {
      return Err(Hasher(publicFields.error));
    }
    var readHashes := Resized(Selected(slots[..], readBitmap, CACHE_CAPACITY), |inputs|);
    var s := Selection(readBitmap, publicFields.value.0, publicFields.value.1, readHashes,
                       seq(|inputs|, k requires 0 <= k < |inputs| => inputs[k].Some?),
                       seq(|inputs|, k requires 0 <= k < |inputs| =>
                         if inputs[k].Some? then Rank(readBitmap, inputs[k].value.slot) else 0));
    SelectionHolds(h, treeId, inputs, slots[..], s);
    r := Ok(s);
  }

  lemma {:induction false} GatheredFits(inputs: seq<Option<Read>>, slots: seq<Felt>, bitmap: nat)
    requires Gathered(inputs, slots, bitmap) && InRange(inputs)
    ensures Shr(bitmap, CACHE_CAPACITY) == 0 && Popcount(bitmap) <= |inputs|
    ensures bitmap == 0 <==> NoneCached(inputs)
  {
    hide Rank, Popcount;
    AllBelow(bitmap, CACHE_CAPACITY);
    if bitmap == 0 {
      forall i | 0 <= i < |inputs| ensures inputs[i].None? {
        if inputs[i].Some? {
          assert Reads(inputs, inputs[i].value.slot);
          NoBits(inputs[i].value.slot);
        }
      }
    } else {
      var s := SomeBit(bitmap);
      assert Reads(inputs, s);
    }
  }

  lemma {:induction false} SomeBit(x: nat) returns (s: nat)
    requires x > 0
    ensures Bit(x, s)
  {
    if x % 2 == 1 {
      s := 0;
    } else {
      var below := SomeBit(x / 2);
      s := below + 1;
    }
  }

  lemma {:induction false} SelectionHolds(
    h: Hash4, treeId: Felt, inputs: seq<Option<Read>>, slots: seq<Felt>, s: Selection)
    requires InRange(inputs) && Gathered(inputs, slots, s.readBitmap)
    requires s.readHashes == Resized(Selected(slots, s.readBitmap, CACHE_CAPACITY), |inputs|)
    requires s.chain == RightChain(h, s.readHashes) && s.treeField == (if s.readBitmap == 0 then 0 else treeId)
    requires |s.isCached| == |s.readIndex| == |inputs|
    requires forall i :: 0 <= i < |inputs| ==>
               && s.isCached[i] == inputs[i].Some?
               && s.readIndex[i] == if inputs[i].Some? then Rank(s.readBitmap, inputs[i].value.slot) else 0
    ensures Selects(h, treeId, inputs, s)
  {
    hide RightChain, Selected, Rank, Popcount, Bit, Shr, SlotHash;
    var bitmap := s.readBitmap;
    AllBelow(bitmap, CACHE_CAPACITY);
    SelectedAtRank(slots, bitmap, CACHE_CAPACITY, 0);
    forall i | 0 <= i < |inputs| && inputs[i].Some?
      ensures s.readIndex[i] < Popcount(bitmap)
      ensures s.readHashes[s.readIndex[i]] == SlotHash(inputs, inputs[i].value.slot)
    {
      var slot := inputs[i].value.slot;
      assert Reads(inputs, slot);
      SelectedAtRank(slots, bitmap, CACHE_CAPACITY, slot);
    }
  }

  /** The last read of a slot finds its own hash; with distinct slots, every read does. */
  lemma {:induction false} OwnHash(inputs: seq<Option<Read>>, i: nat)
    requires i < |inputs| && inputs[i].Some?
    requires forall k :: i < k < |inputs| && inputs[k].Some? ==> inputs[k].value.slot != inputs[i].value.slot
    ensures SlotHash(inputs, inputs[i].value.slot) == inputs[i].value.hash
  {
    if i < |inputs| - 1 {
      OwnHash(inputs[..|inputs| - 1], i);
    }
  }

  /** Any earlier read of the slot does exactly when its hash is the last one's. */
  lemma {:induction false} LastReadWins(inputs: seq<Option<Read>>, i: nat, k: nat)
    requires i < k < |inputs| && inputs[i].Some? && inputs[k].Some? && inputs[i].value.slot == inputs[k].value.slot
    requires forall j :: k < j < |inputs| && inputs[j].Some? ==> inputs[j].value.slot != inputs[k].value.slot
    ensures SlotHash(inputs, inputs[i].value.slot) == inputs[i].value.hash
            <==> inputs[i].value.hash == inputs[k].value.hash
  {
    OwnHash(inputs, k);
  }
}
