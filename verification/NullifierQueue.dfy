/** The nullifier queue as the tree library documents it: an ordered list of
values cut into ZKP batches, of which a prefix is applied to the tree. Two batch slots store it.

Positions are counted in ZKP batches. `done` is the first one of the batch being applied and
`filling` the first one of the batch being filled, both multiples of the batch length.
 */
module NullifierQueue {
  import opened Arithmetic
  import opened Field

  /** `zkpBatches` is both the ZKP batches per queue batch and the root-history length. */
  datatype Config = Config(zkpBatchSize: nat, zkpBatches: nat, capacity: nat)

  predicate ValidConfig(c: Config) {
    c.zkpBatchSize > 0 && c.zkpBatches > 0
  }

  /** Finalized ZKP batches, the values of the open one, how many batches are in the tree, and where
      the pending and the current queue batch begin. */
  datatype Queue = Queue(chunks: seq<seq<Felt>>, open: seq<Felt>, applied: nat, done: nat, filling: nat)

  const EMPTY := Queue([], [], 0, 0, 0)

  ghost function Flatten(chunks: seq<seq<Felt>>): seq<Felt> {
    if |chunks| == 0 then [] else Flatten(chunks[..|chunks| - 1]) + chunks[|chunks| - 1]
  }

  /** Every value ever queued, in queue order. */
  ghost function Values(q: Queue): seq<Felt> {
    Flatten(q.chunks) + q.open
  }

  /** `n * z`, kept recursive so that the many positions stay linear terms to the solver. */
  function Times(n: nat, z: nat): nat {
    if n == 0 then 0 else Times(n - 1, z) + z
  }

  lemma {:induction false} TimesIsProduct(n: nat, z: nat)
    ensures Times(n, z) == n * z
  {
    if n > 0 {
      TimesIsProduct(n - 1, z);
      MulSucc(n - 1, z);
    }
  }

  lemma {:induction false} TimesAdd(m: nat, n: nat, z: nat)
    ensures Times(m + n, z) == Times(m, z) + Times(n, z)
  {
    if n > 0 {
      TimesAdd(m, n - 1, z);
    }
  }

  lemma {:induction false} TimesMono(m: nat, n: nat, z: nat)
    requires m <= n
    ensures Times(m, z) <= Times(n, z)
  {
    TimesAdd(m, n - m, z);
  }

  /** Values per queue batch. */
  function BatchSize(c: Config): nat {
    Times(c.zkpBatches, c.zkpBatchSize)
  }

  /** Leaf index the next queued value takes; leaf 0 is the sentinel. */
  function QueueIndex(c: Config, q: Queue): nat {
    1 + Times(|q.chunks|, c.zkpBatchSize) + |q.open|
  }

  function TreeIndex(c: Config, q: Queue): nat {
    1 + Times(q.applied, c.zkpBatchSize)
  }

  /** The PDA-close watermark: the first leaf of the last fully applied batch. */
  function Watermark(c: Config, q: Queue): nat {
    if q.done < c.zkpBatches then 0 else 1 + Times(q.done - c.zkpBatches, c.zkpBatchSize)
  }

  ghost predicate WellFormed(c: Config, q: Queue) {
    && ValidConfig(c)
    && |q.open| < c.zkpBatchSize
    && (forall i :: 0 <= i < |q.chunks| ==> |q.chunks[i]| == c.zkpBatchSize)
    && q.applied <= |q.chunks|
    && q.done <= q.applied < q.done + c.zkpBatches
    && q.filling <= |q.chunks| < q.filling + c.zkpBatches
    && (q.done == 0 || q.done >= c.zkpBatches)
    && (q.filling == q.done || q.filling == q.done + c.zkpBatches ||
        (q.filling == q.done + 2 * c.zkpBatches && |q.chunks| == q.filling && q.open == []))
    && QueueIndex(c, q) <= c.capacity
  }

  /** There is room while the batch being filled is not the one two past the batch being applied. */
  predicate CanPush(c: Config, q: Queue) {
    q.filling < q.done + 2 * c.zkpBatches && QueueIndex(c, q) < c.capacity
  }

  /** Queue one value. */
  function Push(c: Config, q: Queue, value: Felt): Queue {
    if |q.open| + 1 == c.zkpBatchSize then
      q.(chunks := q.chunks + [q.open + [value]], open := [],
         filling := if |q.chunks| + 1 == q.filling + c.zkpBatches then q.filling + c.zkpBatches else q.filling)
    else q.(open := q.open + [value])
  }

  /** Apply the next ZKP batch to the tree. */
  function Apply(c: Config, q: Queue): Queue {
    q.(applied := q.applied + 1,
       done := if q.applied + 1 == q.done + c.zkpBatches then q.done + c.zkpBatches else q.done)
  }

  lemma {:induction false} PushKeepsWellFormed(c: Config, q: Queue, value: Felt)
    requires WellFormed(c, q) && CanPush(c, q)
    ensures WellFormed(c, Push(c, q, value))
    ensures QueueIndex(c, Push(c, q, value)) == QueueIndex(c, q) + 1
    ensures Values(Push(c, q, value)) == Values(q) + [value]
  {
    var chunks := q.chunks + [q.open + [value]];
    assert chunks[..|q.chunks|] == q.chunks;
  }

  lemma {:induction false} ApplyKeepsWellFormed(c: Config, q: Queue)
    requires WellFormed(c, q) && q.applied < |q.chunks|
    ensures WellFormed(c, Apply(c, q)) && Values(Apply(c, q)) == Values(q)
    ensures TreeIndex(c, Apply(c, q)) == TreeIndex(c, q) + c.zkpBatchSize <= QueueIndex(c, q)
  {
    TimesMono(q.applied + 1, |q.chunks|, c.zkpBatchSize);
  }

  /** The values of the first `s` ZKP batches are the first `s * Z` queued values. */
  lemma {:induction false} FlattenIsPrefix(c: Config, q: Queue, s: nat)
    requires WellFormed(c, q) && s <= |q.chunks|
    ensures Flatten(q.chunks[..s]) <= Values(q) && |Flatten(q.chunks[..s])| == Times(s, c.zkpBatchSize)
    ensures |Values(q)| == QueueIndex(c, q) - 1
    decreases |q.chunks| - s
  {
    FlattenLength(c, q.chunks, s);
    FlattenLength(c, q.chunks, |q.chunks|);
    assert q.chunks[..|q.chunks|] == q.chunks;
    if s < |q.chunks| {
      FlattenIsPrefix(c, q, s + 1);
      assert q.chunks[..s + 1][..s] == q.chunks[..s];
    }
  }

  lemma {:induction false} FlattenLength(c: Config, chunks: seq<seq<Felt>>, s: nat)
    requires s <= |chunks| && forall i :: 0 <= i < |chunks| ==> |chunks[i]| == c.zkpBatchSize
    ensures |Flatten(chunks[..s])| == Times(s, c.zkpBatchSize)
  {
    if s > 0 {
      FlattenLength(c, chunks, s - 1);
      assert chunks[..s][..s - 1] == chunks[..s - 1];
    }
  }

  // ----- The root history.

  /** History slot of the root after update `s`, for the last `zkpBatches` updates. */
  function RootSlot(c: Config, q: Queue, s: nat): int {
    if s >= q.done then s - q.done else s - q.done + c.zkpBatches
  }

  /** The root history holds the roots after the last `zkpBatches` updates, and each commits the
      values of the ZKP batches applied by then. Slots never written are zero. */
  ghost predicate RootsCommit(commit: seq<Felt> -> Felt, c: Config, q: Queue, roots: seq<Felt>)
    requires WellFormed(c, q)
  {
    && |roots| == c.zkpBatches
    && (forall s: nat {:trigger RootSlot(c, q, s)} :: s <= q.applied < s + c.zkpBatches ==>
          roots[RootSlot(c, q, s)] == commit(Flatten(q.chunks[..s])))
    && (forall j :: q.applied < j < |roots| ==> roots[j] == 0)
  }

  lemma {:induction false} InitialRoots(commit: seq<Felt> -> Felt, c: Config, roots: seq<Felt>)
    requires WellFormed(c, EMPTY) && |roots| == c.zkpBatches && roots[0] == commit([])
    requires forall j :: 0 < j < |roots| ==> roots[j] == 0
    ensures RootsCommit(commit, c, EMPTY, roots)
  {
    var none: seq<seq<Felt>> := [];
    assert none[..0] == [];
  }

  lemma {:induction false} ApplyRoot(commit: seq<Felt> -> Felt, c: Config, q: Queue, roots: seq<Felt>, root: Felt)
    requires WellFormed(c, q) && q.applied < |q.chunks| && RootsCommit(commit, c, q, roots)
    requires root == commit(Flatten(q.chunks[..q.applied + 1]))
    ensures WellFormed(c, Apply(c, q))
    ensures RootsCommit(commit, c, Apply(c, q), roots[RootSlot(c, Apply(c, q), q.applied + 1) := root])
  {
    ApplyKeepsWellFormed(c, q);
    var q' := Apply(c, q);
    var roots' := roots[RootSlot(c, q', q.applied + 1) := root];
    forall s: nat | s <= q'.applied < s + c.zkpBatches
      ensures roots'[RootSlot(c, q', s)] == commit(Flatten(q'.chunks[..s]))
    {
      if s < q'.applied {
        assert RootSlot(c, q', s) == RootSlot(c, q, s);
      }
    }
  }

  lemma {:induction false} PushKeepsRoots(commit: seq<Felt> -> Felt, c: Config, q: Queue, roots: seq<Felt>, value: Felt)
    requires WellFormed(c, q) && CanPush(c, q) && RootsCommit(commit, c, q, roots)
    ensures WellFormed(c, Push(c, q, value)) && RootsCommit(commit, c, Push(c, q, value), roots)
  {
    PushKeepsWellFormed(c, q, value);
    var q' := Push(c, q, value);
    forall s: nat | s <= q'.applied < s + c.zkpBatches
      ensures roots[RootSlot(c, q', s)] == commit(Flatten(q'.chunks[..s]))
    {
      assert q'.chunks[..s] == q.chunks[..s];
      assert RootSlot(c, q', s) == RootSlot(c, q, s);
    }
  }

  /** A root that can be looked up commits all but at most the last `zkpBatches - 1` updates. */
  lemma {:induction false} AcceptedRoot(commit: seq<Felt> -> Felt, c: Config, q: Queue, roots: seq<Felt>, j: nat)
    returns (s: nat)
    requires WellFormed(c, q) && RootsCommit(commit, c, q, roots) && j < |roots| && roots[j] != 0
    ensures s <= q.applied < s + c.zkpBatches
    ensures roots[j] == commit(Flatten(q.chunks[..s]))
  {
    s := if q.done + j <= q.applied then q.done + j else q.done + j - c.zkpBatches;
    assert RootSlot(c, q, s) == j;
  }

  /** Every root that can be looked up contains every value below the close watermark. */
  lemma {:induction false} RootsContainClosable(c: Config, q: Queue, s: nat, i: nat)
    requires WellFormed(c, q) && s <= q.applied < s + c.zkpBatches
    requires 1 <= i < Watermark(c, q)
    ensures i <= |Values(q)| && Values(q)[i - 1] in Flatten(q.chunks[..s])
  {
    TimesMono(q.done - c.zkpBatches, s, c.zkpBatchSize);
    FlattenIsPrefix(c, q, s);
    assert Flatten(q.chunks[..s])[i - 1] == Values(q)[i - 1];
  }

  // ----- Positions as quotients.

  /** The batch being applied and the batch being filled begin at multiples of the batch length. */
  ghost predicate Aligned(c: Config, q: Queue) {
    Multiple(q.done, c.zkpBatches) && Multiple(q.filling, c.zkpBatches)
  }

  ghost predicate Multiple(n: nat, z: nat) {
    exists k: nat :: n == Times(k, z)
  }

  lemma {:induction false} EmptyAligned(c: Config)
    ensures Aligned(c, EMPTY)
  {
    assert Times(0, c.zkpBatches) == 0;
  }

  lemma {:induction false} NextMultiple(n: nat, z: nat)
    requires Multiple(n, z)
    ensures Multiple(n + z, z)
  {
    var k: nat :| n == Times(k, z);
    assert Times(k + 1, z) == n + z;
  }

  lemma {:induction false} PushKeepsAligned(c: Config, q: Queue, value: Felt)
    requires Aligned(c, q)
    ensures Aligned(c, Push(c, q, value))
  {
    hide Multiple;
    NextMultiple(q.filling, c.zkpBatches);
  }

  lemma {:induction false} ApplyKeepsAligned(c: Config, q: Queue)
    requires Aligned(c, q)
    ensures Aligned(c, Apply(c, q))
  {
    hide Multiple;
    NextMultiple(q.done, c.zkpBatches);
  }

  lemma {:induction false} BaseIsQuotient(base: nat, n: nat, z: nat)
    requires Multiple(base, z) && z > 0 && base <= n < base + z
    ensures base == n / z * z && n % z == n - base
  {
    var k: nat :| base == Times(k, z);
    TimesIsProduct(k, z);
    DivModUnique(n, z, k, n - base);
  }

  /** A queued leaf's PDA may be closed exactly once the queue batch after its own is fully applied. */
  predicate NextBatchApplied(c: Config, q: Queue, i: nat)
    requires c.zkpBatches * c.zkpBatchSize > 0 && i >= 1
  {
    ((i - 1) / (c.zkpBatches * c.zkpBatchSize) + 2) * c.zkpBatches <= q.applied
  }

  lemma {:induction false} BatchSizePositive(c: Config)
    requires ValidConfig(c)
    ensures c.zkpBatches * c.zkpBatchSize > 0
  {
    MulMono(1, c.zkpBatches, c.zkpBatchSize);
  }

  lemma {:induction false} ClosableIff(c: Config, q: Queue, i: nat)
    requires WellFormed(c, q) && Aligned(c, q) && i >= 1
    ensures c.zkpBatches * c.zkpBatchSize > 0
    ensures i < Watermark(c, q) <==> NextBatchApplied(c, q, i)
  {
    hide WellFormed, Multiple, Times;
    QueuePositions(c, q);
    BatchSizePositive(c);
    var z, size, k := c.zkpBatches, c.zkpBatches * c.zkpBatchSize, q.applied / c.zkpBatches;
    var b := (i - 1) / size;
    // The quotient decides when two more batches are applied.
    QuotientAtLeast(q.applied, z, b + 2);
    if k >= 1 {
      MulSucc(k - 1, z);
      TimesIsProduct((k - 1) * z, c.zkpBatchSize);
      MulAssoc(k - 1, z, c.zkpBatchSize);
      MulMono(1, k, z);
      DivLess(i - 1, size, k - 1);
    }
  }

  lemma {:induction false} MulAssoc(a: nat, b: nat, d: nat)
    ensures a * b * d == a * (b * d)
  {
  }

  lemma {:induction false} QuotientAtLeast(x: nat, d: nat, m: nat)
    requires d > 0
    ensures m * d <= x <==> m <= x / d
  {
    DivLess(x, d, m);
  }

  lemma {:induction false} QueuePositions(c: Config, q: Queue)
    requires WellFormed(c, q) && Aligned(c, q)
    ensures ValidConfig(c)
    ensures q.done == q.applied / c.zkpBatches * c.zkpBatches
    ensures q.filling == |q.chunks| / c.zkpBatches * c.zkpBatches
  {
    hide Multiple, Times;
    BaseIsQuotient(q.done, q.applied, c.zkpBatches);
    BaseIsQuotient(q.filling, |q.chunks|, c.zkpBatches);
  }

  /** A value can be queued exactly while the tree has a leaf left and fewer than two queue batches are
      waiting to be applied. */
  lemma {:induction false} CanPushIff(c: Config, q: Queue)
    requires WellFormed(c, q) && Aligned(c, q)
    ensures c.zkpBatches > 0
    ensures CanPush(c, q) <==>
              && QueueIndex(c, q) < c.capacity
              && |q.chunks| / c.zkpBatches < q.applied / c.zkpBatches + 2
  {
    hide WellFormed, Multiple, Times, QueueIndex;
    QueuePositions(c, q);
    var z, m, n := c.zkpBatches, |q.chunks| / c.zkpBatches, q.applied / c.zkpBatches;
    MulSucc(n, z);
    MulSucc(n + 1, z);
    if m < n + 2 {
      MulMono(m + 1, n + 2, z);
      MulSucc(m, z);
    } else {
      MulMono(n + 2, m, z);
    }
  }

  /** The ring keeps the root of prefix `s` at `s` modulo its length. */
  lemma {:induction false} RootSlotIsModulo(c: Config, q: Queue, s: nat)
    requires WellFormed(c, q) && Aligned(c, q) && s <= q.applied < s + c.zkpBatches
    ensures c.zkpBatches > 0 && RootSlot(c, q, s) == s % c.zkpBatches
  {
    hide Multiple, Times;
    BaseIsQuotient(q.done, q.applied, c.zkpBatches);
    if s >= q.done {
      BaseIsQuotient(q.done, s, c.zkpBatches);
    } else {
      MultipleBefore(q.done, c.zkpBatches);
      BaseIsQuotient(q.done - c.zkpBatches, s, c.zkpBatches);
    }
  }

  lemma {:induction false} MultipleBefore(n: nat, z: nat)
    requires Multiple(n, z) && n >= z > 0
    ensures Multiple(n - z, z)
  {
    var k: nat :| n == Times(k, z);
    assert Times(k - 1, z) == n - z;
  }
}
