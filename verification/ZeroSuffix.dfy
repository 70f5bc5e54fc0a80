/** The zero-suffix shortcut of program-libs/hasher/src/zero_suffix_hash_chain.rs. */
module ZeroSuffix {
  import opened Field
  import opened Result
  import opened HashChain

  const MAX_WIDTH: nat := 54
  const GROUPS: nat := 18

  datatype HasherError = InvalidInputLength(expected: nat, actual: nat)

  ghost predicate AllZero(xs: seq<Felt>) {
    forall i :: 0 <= i < |xs| ==> xs[i] == 0
  }

  /** `Z(k)`, the precomputed table given by its recurrence. */
  function Table(h: Hash4, k: nat): Felt {
    if k == 0 then 0 else h(0, 0, 0, Table(h, k - 1))
  }

  /** The table holds the fold over every all-zero prefix, a short leftmost group included. */
  lemma {:induction false} TableIsFoldOverZeros(h: Hash4, zeros: seq<Felt>)
    requires AllZero(zeros)
    ensures RightFold(h, zeros, 0) == Table(h, DivCeil(|zeros|, 3))
  {
    if |zeros| > 0 {
      var cut := FirstGroup(|zeros|);
      TableIsFoldOverZeros(h, zeros[cut..]);
      assert DivCeil(|zeros|, 3) == DivCeil(|zeros[cut..]|, 3) + 1;
    }
  }

  /** Seeding the fold past whole zero groups does not change it. */
  lemma {:induction false} SeedPastZeros(h: Hash4, prefix: seq<Felt>, end: nat)
    requires end <= |prefix| && AllZero(prefix[end..])
    requires end == 0 || (|prefix| - end) % 3 == 0
    ensures RightFold(h, prefix, 0) == RightFold(h, prefix[..end], Table(h, DivCeil(|prefix| - end, 3)))
  {
    TableIsFoldOverZeros(h, prefix[end..]);
    if end == 0 {
      assert prefix[0..] == prefix;
    } else {
      assert prefix == prefix[..end] + prefix[end..];
      RightFoldConcat(h, prefix[..end], prefix[end..], 0);
    }
  }

  /** The one input family past the table: the 19 groups the fold visits first are all zero. */
  ghost predicate PastTable(values: seq<Felt>) {
    && |values| >= 3 * GROUPS + 2
    && values[|values| - 1] == 0
    && AllZero(values[(if |values| > 3 * GROUPS + 4 then |values| - (3 * GROUPS + 4) else 0)..])
  }

  /** `create_zero_suffix_right_hash_chain_4`. The result is the full right fold, and the table
      bound is the only error. */
  method CreateZeroSuffixRightHashChain4(h: Hash4, values: seq<Felt>)
    returns (r: Result<Felt, HasherError>, ghost calls: nat)
    ensures r.Ok? <==> !PastTable(values)
    ensures r.Ok? ==> r.value == RightChain(h, values)
    ensures |values| <= MAX_WIDTH ==> r.Ok?
    ensures forall k :: 0 <= k < |values| && AllZero(values[k..]) ==> calls <= DivCeil(k + 2, 3)
    ensures calls <= DivCeil(|values| + 2, 3)
  {
    if |values| == 0 {
      return Ok(0), 0;
    }
    var last := values[|values| - 1];
    var prefix := values[..|values| - 1];
    if last != 0 {
      var chain: Felt;
      chain, calls := CreateRightHashChain4FromSeed(h, prefix, last);
      return Ok(chain), calls;
    }
    var skipped := 0;
    var end := |prefix|;
    while end > 0 && forall i :: (if end >= 3 then end - 3 else 0) <= i < end ==> prefix[i] == 0
      invariant 0 <= end <= |prefix|
      invariant end > 0 ==> 3 * skipped == |prefix| - end
      invariant skipped == DivCeil(|prefix| - end, 3)
      invariant AllZero(prefix[end..])
      decreases end
    {
      skipped := skipped + 1;
      end := if end >= 3 then end - 3 else 0;
    }
    if skipped > GROUPS {
      PastTableWhenSkipped(values, end, skipped);
      return Err(InvalidInputLength(GROUPS, skipped)), 0;
    }
    var seed := Table(h, skipped);
    var remaining := if |prefix| >= 3 * skipped then |prefix| - 3 * skipped else 0;
    assert remaining == end;
    SeedPastZeros(h, prefix, end);
    var chain: Felt;
    chain, calls := CreateRightHashChain4FromSeed(h, prefix[..remaining], seed);
    r := Ok(chain);
  }

  lemma {:induction false} PastTableWhenSkipped(values: seq<Felt>, end: nat, skipped: nat)
    requires end < |values| && values[|values| - 1] == 0 && AllZero(values[..|values| - 1][end..])
    requires end > 0 ==> 3 * skipped == |values| - 1 - end
    requires skipped == DivCeil(|values| - 1 - end, 3) && skipped > GROUPS
    ensures PastTable(values)
  {
    forall i | end <= i < |values| - 1 ensures values[i] == 0 {
      assert values[..|values| - 1][end..][i - end] == values[i];
    }
  }

  /** `create_padded_right_hash_chain_4`: the right fold over `sent` padded with zeros to `width`,
      for a cost that depends on the sent count alone. */
  method CreatePaddedRightHashChain4(h: Hash4, sent: seq<Felt>, width: nat)
    returns (r: Result<Felt, HasherError>, ghost calls: nat)
    ensures r.Ok? <==> width <= MAX_WIDTH && |sent| <= width
    ensures r.Ok? ==> r.value == RightChain(h, sent + seq(width - |sent|, _ => 0))
    ensures calls <= DivCeil(|sent| + 2, 3)
  {
    calls := 0;
    var padded := new Felt[MAX_WIDTH](_ => 0);
    if width > MAX_WIDTH {
      return Err(InvalidInputLength(MAX_WIDTH, width)), 0;
    }
    var index := 0;
    while index < |sent|
      invariant 0 <= index <= |sent| && index <= width
      invariant forall i :: 0 <= i < MAX_WIDTH ==> padded[i] == if i < index then sent[i] else 0
    {
      if index >= width {
        return Err(InvalidInputLength(width, index + 1)), 0;
      }
      padded[index] := sent[index];
      index := index + 1;
    }
    var slots := padded[..width];
    assert slots == sent + seq(width - |sent|, _ => 0);
    r, calls := CreateZeroSuffixRightHashChain4(h, slots);
    assert |sent| < |slots| ==> AllZero(slots[|sent|..]);
  }
}
