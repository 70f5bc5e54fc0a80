/** The 4-input folds of program-libs/hasher/src/hash_chain.rs. */
module HashChain {
  import opened Field

  /** Element `i` of a group of at most three, zero past its end. */
  function Pad(group: seq<Felt>, i: nat): Felt {
    if i < |group| then group[i] else 0
  }

  /** One call absorbing `group` on the right of `chain`. */
  function Absorb(h: Hash4, chain: Felt, group: seq<Felt>): Felt {
    h(chain, Pad(group, 0), Pad(group, 1), Pad(group, 2))
  }

  /** One call absorbing `group` on the left of `chain`. */
  function AbsorbLeft(h: Hash4, group: seq<Felt>, chain: Felt): Felt {
    h(Pad(group, 0), Pad(group, 1), Pad(group, 2), chain)
  }

  /** Size of the leftmost group of the right fold over `n` elements. */
  function FirstGroup(n: nat): (g: nat)
    requires n >= 1
    ensures 1 <= g <= 3 && g <= n
  {
    if n % 3 == 0 then 3 else n % 3
  }

  /** Groups of three from the left, the last one possibly short. */
  function LeftFoldFrom(h: Hash4, chain: Felt, xs: seq<Felt>): Felt
    decreases |xs|
  {
    if |xs| == 0 then chain
    else if |xs| <= 3 then Absorb(h, chain, xs)
    else LeftFoldFrom(h, Absorb(h, chain, xs[..3]), xs[3..])
  }

  /** The left fold: the first element is the head, and later elements join three at a time. */
  function LeftFold(h: Hash4, xs: seq<Felt>): Felt {
    if |xs| == 0 then 0 else LeftFoldFrom(h, xs[0], xs[1..])
  }

  /** The right fold of `prefix` into `seed`, read from the left. The source walks it from the right. */
  function RightFold(h: Hash4, prefix: seq<Felt>, seed: Felt): Felt {
    if |prefix| == 0 then seed
    else
      var cut := FirstGroup(|prefix|);
      AbsorbLeft(h, prefix[..cut], RightFold(h, prefix[cut..], seed))
  }

  /** The right fold of a whole list, seeded with its last element. */
  function RightChain(h: Hash4, xs: seq<Felt>): Felt {
    if |xs| == 0 then 0 else RightFold(h, xs[..|xs| - 1], xs[|xs| - 1])
  }

  lemma {:induction false} LeftFoldFromExtend(h: Hash4, chain: Felt, xs: seq<Felt>, group: seq<Felt>)
    requires |xs| % 3 == 0 && 1 <= |group| <= 3
    ensures LeftFoldFrom(h, chain, xs + group) == Absorb(h, LeftFoldFrom(h, chain, xs), group)
    decreases |xs|
  {
    if |xs| == 0 {
      assert xs + group == group;
    } else {
      assert (xs + group)[..3] == xs[..3] && (xs + group)[3..] == xs[3..] + group;
      LeftFoldFromExtend(h, Absorb(h, chain, xs[..3]), xs[3..], group);
      if |xs| == 3 {
        assert xs[..3] == xs;
      }
    }
  }

  /** A list whose groups are full extends by one group with one call. */
  lemma {:induction false} LeftFoldExtend(h: Hash4, xs: seq<Felt>, group: seq<Felt>)
    requires |xs| % 3 == 1 && 1 <= |group| <= 3
    ensures LeftFold(h, xs + group) == Absorb(h, LeftFold(h, xs), group)
  {
    assert (xs + group)[1..] == xs[1..] + group;
    LeftFoldFromExtend(h, xs[0], xs[1..], group);
  }

  /** `create_hash_chain_4`: the iterator is consumed head first, then three elements per call. */
  method CreateHashChain4(h: Hash4, inputs: seq<Felt>) returns (chain: Felt, ghost calls: nat)
    ensures chain == LeftFold(h, inputs)
    ensures calls == if inputs == [] then 0 else DivCeil(|inputs| - 1, 3)
  {
    calls := 0;
    if |inputs| == 0 {
      return 0, 0;
    }
    chain := inputs[0];
    var next := 1;
    while next < |inputs|
      invariant 1 <= next <= |inputs|
      invariant next == if 1 + 3 * calls <= |inputs| then 1 + 3 * calls else |inputs|
      invariant calls > 0 ==> 3 * calls < |inputs| + 2
      invariant chain == LeftFold(h, inputs[..next])
    {
      var g0 := inputs[next];
      var g1 := if next + 1 < |inputs| then inputs[next + 1] else 0;
      var g2 := if next + 2 < |inputs| then inputs[next + 2] else 0;
      ghost var end := if next + 3 <= |inputs| then next + 3 else |inputs|;
      LeftFoldExtend(h, inputs[..next], inputs[next..end]);
      assert inputs[..next] + inputs[next..end] == inputs[..end];
      chain := h(chain, g0, g1, g2);
      calls := calls + 1;
      next := if next + 3 <= |inputs| then next + 3 else |inputs|;
    }
    assert inputs[..next] == inputs;
  }

  /** Folding in two parts: removing a multiple of three elements from the right of a prefix
      leaves the group boundaries of the rest where they were. */
  lemma {:induction false} RightFoldConcat(h: Hash4, a: seq<Felt>, b: seq<Felt>, seed: Felt)
    requires |b| % 3 == 0
    ensures RightFold(h, a + b, seed) == RightFold(h, a, RightFold(h, b, seed))
  {
    if |a| == 0 {
      assert a + b == b;
    } else {
      var cut := FirstGroup(|a|);
      assert FirstGroup(|a + b|) == cut;
      assert (a + b)[..cut] == a[..cut];
      assert (a + b)[cut..] == a[cut..] + b;
      RightFoldConcat(h, a[cut..], b, seed);
    }
  }

  /** `create_right_hash_chain_4_from_seed`: `rchunks(3)` visits full groups from the right and
      the short leftmost one last. */
  method CreateRightHashChain4FromSeed(h: Hash4, prefix: seq<Felt>, seed: Felt)
    returns (chain: Felt, ghost calls: nat)
    ensures chain == RightFold(h, prefix, seed)
    ensures calls == DivCeil(|prefix|, 3)
  {
    chain := seed;
    calls := 0;
    var end := |prefix|;
    assert prefix[..end] == prefix;
    while end > 0
      invariant 0 <= end <= |prefix|
      invariant RightFold(h, prefix[..end], chain) == RightFold(h, prefix, seed)
      invariant calls + DivCeil(end, 3) == DivCeil(|prefix|, 3)
    {
      var begin := if end >= 3 then end - 3 else 0;
      var group := prefix[begin..end];
      ghost var next := AbsorbLeft(h, group, chain);
      if end >= 3 {
        assert prefix[..end] == prefix[..begin] + group;
        RightFoldConcat(h, prefix[..begin], group, chain);
        assert group[..3] == group && group[3..] == [];
        assert RightFold(h, group, chain) == next;
      } else {
        assert prefix[..end] == group && group[..end] == group && group[end..] == [];
      }
      chain := h(Pad(group, 0), Pad(group, 1), Pad(group, 2), chain);
      calls := calls + 1;
      end := begin;
    }
  }

  /** `create_right_hash_chain_4_from_slice`. */
  method CreateRightHashChain4FromSlice(h: Hash4, inputs: seq<Felt>)
    returns (chain: Felt, ghost calls: nat)
    ensures chain == RightChain(h, inputs)
    ensures calls == if inputs == [] then 0 else DivCeil(|inputs| - 1, 3)
  {
    if |inputs| == 0 {
      return 0, 0;
    }
    chain, calls := CreateRightHashChain4FromSeed(h, inputs[..|inputs| - 1], inputs[|inputs| - 1]);
  }

  lemma {:induction false} PadInjective(a: seq<Felt>, b: seq<Felt>)
    requires |a| == |b| <= 3
    requires Pad(a, 0) == Pad(b, 0) && Pad(a, 1) == Pad(b, 1) && Pad(a, 2) == Pad(b, 2)
    ensures a == b
  {
    forall i | 0 <= i < |a| ensures a[i] == b[i] {
      assert a[i] == Pad(a, i) && b[i] == Pad(b, i);
    }
  }

  lemma {:induction false} LeftFoldFromInjective(h: Hash4, c: Felt, a: seq<Felt>, d: Felt, b: seq<Felt>)
    requires Injective4(h) && |a| == |b| && LeftFoldFrom(h, c, a) == LeftFoldFrom(h, d, b)
    ensures c == d && a == b
    decreases |a|
  {
    if |a| == 0 {
    } else if |a| <= 3 {
      PadInjective(a, b);
    } else {
      LeftFoldFromInjective(h, Absorb(h, c, a[..3]), a[3..], Absorb(h, d, b[..3]), b[3..]);
      PadInjective(a[..3], b[..3]);
      assert a == a[..3] + a[3..] && b == b[..3] + b[3..];
    }
  }

  /** The left fold is injective on lists of one length. */
  lemma {:induction false} LeftFoldInjective(h: Hash4, a: seq<Felt>, b: seq<Felt>)
    requires Injective4(h) && |a| == |b| && LeftFold(h, a) == LeftFold(h, b)
    ensures a == b
  {
    if |a| > 0 {
      LeftFoldFromInjective(h, a[0], a[1..], b[0], b[1..]);
      assert a == [a[0]] + a[1..] && b == [b[0]] + b[1..];
    }
  }

  /** The right fold is injective in prefix and seed for prefixes of one length. */
  lemma {:induction false} RightFoldInjective(h: Hash4, a: seq<Felt>, s: Felt, b: seq<Felt>, t: Felt)
    requires Injective4(h) && |a| == |b| && RightFold(h, a, s) == RightFold(h, b, t)
    ensures a == b && s == t
  {
    if |a| >= 1 {
      var cut := FirstGroup(|a|);
      RightFoldInjective(h, a[cut..], s, b[cut..], t);
      PadInjective(a[..cut], b[..cut]);
      assert a == a[..cut] + a[cut..] && b == b[..cut] + b[cut..];
    }
  }

  /** The fixed length matters. Both folds alias lists of different lengths, and the pair the
      source's comment gives for the right fold aliases only when its first element is zero. */
  lemma {:induction false} FoldsAliasAcrossLengths(h: Hash4, a: Felt, b: Felt)
    ensures LeftFold(h, [a, b]) == LeftFold(h, [a, b, 0, 0])
    ensures RightChain(h, [a, b]) == RightChain(h, [a, 0, b])
    ensures Injective4(h) ==> (RightChain(h, [a, b]) == RightChain(h, [0, a, b]) <==> a == 0)
  {
    assert LeftFold(h, [a, b]) == h(a, b, 0, 0) by { LeftFoldExtend(h, [a], [b]); }
    assert LeftFold(h, [a, b, 0, 0]) == h(a, b, 0, 0) by {
      LeftFoldExtend(h, [a], [b, 0, 0]);
      assert [a] + [b, 0, 0] == [a, b, 0, 0];
    }
    RightChainOfTwo(h, a, b);
    RightChainOfThree(h, a, 0, b);
    RightChainOfThree(h, 0, a, b);
  }

  lemma {:induction false} RightChainOfTwo(h: Hash4, a: Felt, s: Felt)
    ensures RightChain(h, [a, s]) == h(a, 0, 0, s)
  {
    assert [a, s][..1] == [a] && [a][1..] == [];
    assert RightFold(h, [a][1..], s) == s;
  }

  lemma {:induction false} RightChainOfThree(h: Hash4, a: Felt, b: Felt, s: Felt)
    ensures RightChain(h, [a, b, s]) == h(a, b, 0, s)
  {
    assert [a, b, s][..2] == [a, b] && [a, b][2..] == [];
    assert RightFold(h, [a, b][2..], s) == s;
  }

  // ----- The folds over the hash alone.

  /** What each further group of the left fold hashes, in which order, with the short last group padded. */
  lemma {:induction false} LeftFoldGroups(h: Hash4, xs: seq<Felt>, x: Felt, y: Felt, z: Felt)
    requires |xs| % 3 == 1
    ensures LeftFold(h, xs + [x, y, z]) == h(LeftFold(h, xs), x, y, z)
    ensures LeftFold(h, xs + [x, y]) == h(LeftFold(h, xs), x, y, 0)
    ensures LeftFold(h, xs + [x]) == h(LeftFold(h, xs), x, 0, 0)
  {
    hide LeftFold;
    LeftFoldExtend(h, xs, [x, y, z]);
    LeftFoldExtend(h, xs, [x, y]);
    LeftFoldExtend(h, xs, [x]);
  }

  lemma {:induction false} LeftFoldOfFew(h: Hash4, a: Felt, b: Felt, c: Felt, d: Felt)
    ensures LeftFold(h, []) == 0 && LeftFold(h, [a]) == a
    ensures LeftFold(h, [a, b]) == h(a, b, 0, 0)
    ensures LeftFold(h, [a, b, c]) == h(a, b, c, 0)
    ensures LeftFold(h, [a, b, c, d]) == h(a, b, c, d)
  {
    LeftFoldGroups(h, [a], b, c, d);
    assert [a][1..] == [];
    assert [a] + [b] == [a, b] && [a] + [b, c] == [a, b, c] && [a] + [b, c, d] == [a, b, c, d];
  }

  /** The same for the right fold, whose short group is the leftmost. */
  lemma {:induction false} RightChainGroups(h: Hash4, x: Felt, y: Felt, z: Felt, xs: seq<Felt>)
    requires |xs| % 3 == 1
    ensures RightChain(h, [x, y, z] + xs) == h(x, y, z, RightChain(h, xs))
    ensures RightChain(h, [x, y] + xs) == h(x, y, 0, RightChain(h, xs))
    ensures RightChain(h, [x] + xs) == h(x, 0, 0, RightChain(h, xs))
  {
    RightChainGroup(h, [x, y, z], xs);
    RightChainGroup(h, [x, y], xs);
    RightChainGroup(h, [x], xs);
  }

  lemma {:induction false} RightChainGroup(h: Hash4, group: seq<Felt>, xs: seq<Felt>)
    requires |xs| % 3 == 1 && 1 <= |group| <= 3
    ensures RightChain(h, group + xs) == AbsorbLeft(h, group, RightChain(h, xs))
  {
    var prefix, seed := xs[..|xs| - 1], xs[|xs| - 1];
    var v := RightFold(h, prefix, seed);
    assert (group + xs)[..|group + xs| - 1] == group + prefix;
    RightFoldConcat(h, group, prefix, seed);
    assert group[..|group|] == group && group[|group|..] == [];
    assert RightFold(h, [], v) == v;
  }

  lemma {:induction false} RightChainOfFew(h: Hash4, a: Felt, b: Felt, c: Felt, d: Felt, e: Felt)
    ensures RightChain(h, []) == 0 && RightChain(h, [a]) == a
    ensures RightChain(h, [a, b]) == h(a, 0, 0, b) && RightChain(h, [a, b, c]) == h(a, b, 0, c)
    ensures RightChain(h, [a, b, c, d]) == h(a, b, c, d)
    ensures RightChain(h, [a, b, c, d, e]) == h(a, 0, 0, h(b, c, d, e))
  {
    RightChainOfTwo(h, a, b);
    RightChainOfThree(h, a, b, c);
    RightChainGroups(h, a, b, c, [d]);
    RightChainGroups(h, b, c, d, [e]);
    RightChainGroups(h, a, a, a, [b, c, d, e]);
    assert [a, b, c] + [d] == [a, b, c, d] && [b, c, d] + [e] == [b, c, d, e];
    assert [a] + [b, c, d, e] == [a, b, c, d, e];
    assert RightFold(h, [], d) == d && RightFold(h, [], e) == e && RightFold(h, [], a) == a;
  }

  // ----- The binary fold that skips zero elements.

  /** The binary left fold from `chain`. */
  function ChainFrom(h: Hash2, chain: Felt, xs: seq<Felt>): Felt
    decreases |xs|
  {
    if |xs| == 0 then chain else ChainFrom(h, h(chain, xs[0]), xs[1..])
  }

  function Chain(h: Hash2, xs: seq<Felt>): Felt {
    if |xs| == 0 then 0 else ChainFrom(h, xs[0], xs[1..])
  }

  function Nonzero(xs: seq<Felt>): seq<Felt> {
    if |xs| == 0 then [] else (if xs[0] == 0 then [] else [xs[0]]) + Nonzero(xs[1..])
  }

  /** The closure of `create_nonzero_hash_chain_from_slice`, which takes a zero chain for a fresh start. */
  function NonzeroChainFrom(h: Hash2, chain: Felt, xs: seq<Felt>): Felt
    decreases |xs|
  {
    if |xs| == 0 then chain
    else if xs[0] == 0 then NonzeroChainFrom(h, chain, xs[1..])
    else NonzeroChainFrom(h, if chain == 0 then xs[0] else h(chain, xs[0]), xs[1..])
  }

  lemma {:induction false} NonzeroSnoc(xs: seq<Felt>, x: Felt)
    ensures Nonzero(xs + [x]) == Nonzero(xs) + (if x == 0 then [] else [x])
  {
    if |xs| > 0 {
      assert (xs + [x])[1..] == xs[1..] + [x];
      NonzeroSnoc(xs[1..], x);
    }
  }

  lemma {:induction false} NonzeroHasNoZero(xs: seq<Felt>)
    ensures 0 !in Nonzero(xs)
  {
    if |xs| > 0 {
      NonzeroHasNoZero(xs[1..]);
    }
  }

  lemma {:induction false} NonzeroChainSnoc(h: Hash2, chain: Felt, xs: seq<Felt>, x: Felt)
    ensures var before := NonzeroChainFrom(h, chain, xs);
            NonzeroChainFrom(h, chain, xs + [x])
            == if x == 0 then before else if before == 0 then x else h(before, x)
    decreases |xs|
  {
    if |xs| == 0 {
      assert (xs + [x])[1..] == [];
    } else {
      assert (xs + [x])[1..] == xs[1..] + [x];
      var next := if xs[0] == 0 then chain else if chain == 0 then xs[0] else h(chain, xs[0]);
      NonzeroChainSnoc(h, next, xs[1..], x);
    }
  }

  lemma {:induction false} ChainFromConcat(h: Hash2, chain: Felt, a: seq<Felt>, b: seq<Felt>)
    ensures ChainFrom(h, chain, a + b) == ChainFrom(h, ChainFrom(h, chain, a), b)
    decreases |a|
  {
    if |a| == 0 {
      assert a + b == b;
    } else {
      assert (a + b)[1..] == a[1..] + b;
      ChainFromConcat(h, h(chain, a[0]), a[1..], b);
    }
  }

  lemma {:induction false} ChainConcat(h: Hash2, a: seq<Felt>, b: seq<Felt>)
    requires |a| > 0
    ensures Chain(h, a + b) == ChainFrom(h, Chain(h, a), b)
  {
    assert (a + b)[1..] == a[1..] + b;
    ChainFromConcat(h, a[0], a[1..], b);
  }

  lemma {:induction false} ChainSnoc(h: Hash2, xs: seq<Felt>, x: Felt)
    requires |xs| > 0
    ensures Chain(h, xs + [x]) == h(Chain(h, xs), x)
  {
    ChainConcat(h, xs, [x]);
    assert ChainFrom(h, Chain(h, xs), [x]) == ChainFrom(h, h(Chain(h, xs), x), []);
  }

  /** Where the fold over nonzero elements last starts afresh: after its last proper prefix that leaves
      the running value zero. */
  function Restart(h: Hash2, ys: seq<Felt>): (r: nat)
    ensures |ys| > 0 ==> r < |ys|
    ensures |ys| == 0 ==> r == 0
  {
    if |ys| <= 1 then 0
    else
      var front := ys[..|ys| - 1];
      if Chain(h, front[Restart(h, front)..]) == 0 then |ys| - 1 else Restart(h, front)
  }

  /** For every list, the fold is the chain of the nonzero elements from the last restart on. */
  lemma {:induction false} NonzeroChainRestarts(h: Hash2, xs: seq<Felt>)
    ensures var ys := Nonzero(xs); NonzeroChainFrom(h, 0, xs) == Chain(h, ys[Restart(h, ys)..])
  {
    if |xs| > 0 {
      hide Nonzero, NonzeroChainFrom, Chain;
      var front, x := xs[..|xs| - 1], xs[|xs| - 1];
      assert xs == front + [x];
      NonzeroChainRestarts(h, front);
      NonzeroSnoc(front, x);
      NonzeroChainSnoc(h, 0, front, x);
      if x != 0 {
        RestartSnoc(h, Nonzero(front), x);
      } else {
        assert Nonzero(front) + [] == Nonzero(front);
      }
    }
  }

  lemma {:induction false} RestartSnoc(h: Hash2, ys: seq<Felt>, x: Felt)
    ensures var before, all := Chain(h, ys[Restart(h, ys)..]), ys + [x];
            Chain(h, all[Restart(h, all)..]) == if before == 0 then x else h(before, x)
  {
    var all, r := ys + [x], Restart(h, ys);
    assert all[..|ys|] == ys;
    if |ys| > 0 {
      if Chain(h, ys[r..]) == 0 {
        assert all[|ys|..] == [x];
      } else {
        assert all[r..] == ys[r..] + [x];
        ChainSnoc(h, ys[r..], x);
      }
    }
  }

  /** No proper prefix folds to zero. */
  ghost predicate NoZeroPrefix(h: Hash2, ys: seq<Felt>) {
    forall k :: 0 < k < |ys| ==> Chain(h, ys[..k]) != 0
  }

  /** The fold starts afresh exactly when some proper prefix of the nonzero elements folds to zero. */
  lemma {:induction false} RestartIffZeroPrefix(h: Hash2, ys: seq<Felt>)
    ensures Restart(h, ys) == 0 <==> NoZeroPrefix(h, ys)
  {
    if |ys| > 1 {
      hide Chain;
      var front := ys[..|ys| - 1];
      RestartIffZeroPrefix(h, front);
      ZeroPrefixSnoc(h, ys);
      assert front[0..] == front;
    }
  }

  lemma {:induction false} ZeroPrefixSnoc(h: Hash2, ys: seq<Felt>)
    requires |ys| > 1
    ensures var front := ys[..|ys| - 1]; NoZeroPrefix(h, ys) <==> NoZeroPrefix(h, front) && Chain(h, front) != 0
  {
    hide Chain;
    var front := ys[..|ys| - 1];
    assert forall k :: 0 < k < |front| ==> ys[..k] == front[..k];
    if NoZeroPrefix(h, ys) {
      forall k | 0 < k < |front| ensures Chain(h, front[..k]) != 0 {
        assert ys[..k] == front[..k];
      }
      assert Chain(h, ys[..|front|]) != 0;
    }
    if NoZeroPrefix(h, front) && Chain(h, front) != 0 {
      forall k | 0 < k < |ys| ensures Chain(h, ys[..k]) != 0 {
        assert k < |front| ==> Chain(h, front[..k]) != 0;
      }
    }
  }

  /** Without such a prefix the fold is the chain of the nonzero elements, wherever the zeros are. */
  lemma {:induction false} NonzeroChainIsChain(h: Hash2, xs: seq<Felt>)
    requires NoZeroPrefix(h, Nonzero(xs))
    ensures NonzeroChainFrom(h, 0, xs) == Chain(h, Nonzero(xs))
  {
    var ys := Nonzero(xs);
    RestartIffZeroPrefix(h, ys);
    NonzeroChainRestarts(h, xs);
    assert ys[0..] == ys;
  }

  lemma {:induction false} SameHash(h: Hash2, c: Felt, d: Felt, x: Felt)
    requires Injective2(h)
    ensures h(c, x) == h(d, x) ==> c == d
  {
  }

  lemma {:induction false} ChainFromInjective(h: Hash2, c: Felt, d: Felt, xs: seq<Felt>)
    requires Injective2(h)
    ensures ChainFrom(h, c, xs) == ChainFrom(h, d, xs) ==> c == d
    decreases |xs|
  {
    if |xs| > 0 {
      ChainFromInjective(h, h(c, xs[0]), h(d, xs[0]), xs[1..]);
      SameHash(h, c, d, xs[0]);
    }
  }

  /** With a collision-free hash, exactly then, or when the element it restarts at is a fixed point of the
      hash with what came before. */
  lemma {:induction false} NonzeroChainIsChainIff(h: Hash2, xs: seq<Felt>)
    requires Injective2(h)
    ensures var ys := Nonzero(xs);
            var r := Restart(h, ys);
            NonzeroChainFrom(h, 0, xs) == Chain(h, ys)
            <==> NoZeroPrefix(h, ys) || h(Chain(h, ys[..r]), ys[r]) == ys[r]
  {
    hide Nonzero, NonzeroChainFrom, Restart;
    var ys := Nonzero(xs);
    var r := Restart(h, ys);
    RestartIffZeroPrefix(h, ys);
    NonzeroChainRestarts(h, xs);
    if r == 0 {
      assert ys[0..] == ys;
    } else {
      var tail := ys[r + 1..];
      assert ys[r..] == [ys[r]] + tail && ys == ys[..r] + [ys[r]] + tail;
      ChainConcat(h, [ys[r]], tail);
      ChainSnoc(h, ys[..r], ys[r]);
      ChainConcat(h, ys[..r] + [ys[r]], tail);
      ChainFromInjective(h, ys[r], h(Chain(h, ys[..r]), ys[r]), tail);
    }
  }

  ghost predicate NeverZero(h: Hash2) {
    forall a, b :: h(a, b) != 0
  }

  /** In particular for a hash that is never zero. */
  lemma {:induction false} NonzeroChainSkipsZeros(h: Hash2, xs: seq<Felt>)
    requires NeverZero(h)
    ensures NonzeroChainFrom(h, 0, xs) == Chain(h, Nonzero(xs))
  {
    var ys := Nonzero(xs);
    NonzeroHasNoZero(xs);
    forall k | 0 < k < |ys| ensures Chain(h, ys[..k]) != 0 {
      if k > 1 {
        ChainSnoc(h, ys[..k - 1], ys[k - 1]);
        assert ys[..k - 1] + [ys[k - 1]] == ys[..k];
      } else {
        assert ys[..1] == [ys[0]] && ys[0] in ys;
      }
    }
    NonzeroChainIsChain(h, xs);
  }

  /** A hash that comes out zero makes the fold forget everything before it. */
  lemma {:induction false} ZeroHashRestarts(h: Hash2, a: Felt, b: Felt, c: Felt)
    requires a != 0 && b != 0 && c != 0 && h(a, b) == 0
    ensures NonzeroChainFrom(h, 0, [a, b, c]) == c && Chain(h, [a, b, c]) == h(0, c)
  {
    assert [a, b, c][1..] == [b, c] && [b, c][1..] == [c] && [c][1..] == [];
    assert NonzeroChainFrom(h, 0, [c]) == c;
    assert ChainFrom(h, 0, [c]) == h(0, c);
  }

  /** The binary fold hashes what it has with the next element. */
  lemma {:induction false} NonzeroChainOfFew(h: Hash2, a: Felt, b: Felt, c: Felt)
    requires a != 0 && b != 0 && c != 0 && h(a, b) != 0
    ensures NonzeroChainFrom(h, 0, []) == 0 && NonzeroChainFrom(h, 0, [0, a]) == a
    ensures NonzeroChainFrom(h, 0, [a, 0, b]) == h(a, b) && NonzeroChainFrom(h, 0, [a, b, c]) == h(h(a, b), c)
  {
    NonzeroChainSnoc(h, 0, [], a);
    NonzeroChainSnoc(h, 0, [0], a);
    NonzeroChainSnoc(h, 0, [], 0);
    NonzeroChainSnoc(h, 0, [a], 0);
    NonzeroChainSnoc(h, 0, [a, 0], b);
    NonzeroChainSnoc(h, 0, [a], b);
    NonzeroChainSnoc(h, 0, [a, b], c);
    assert [] + [a] == [a] && [0] + [a] == [0, a] && [] + [0] == [0] && [a] + [0] == [a, 0];
    assert [a, 0] + [b] == [a, 0, b] && [a] + [b] == [a, b] && [a, b] + [c] == [a, b, c];
  }
}
