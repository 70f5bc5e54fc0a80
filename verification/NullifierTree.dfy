/** The batched nullifier tree:
program-libs/tree/src/nullifier_tree/{layout,init,queue_insert,access,merkle_tree_update}.rs. */
module NullifierTree {
  import opened Arithmetic
  import Bits
  import opened Field
  import opened Result
  import opened HashChain
  import opened NullifierBatch
  import opened NullifierQueue

  type Proof = seq<int>

  /** The 4-input hash, the Groth16 check of a public input for a ZKP batch size, and the root of the
      indexed tree after appending a list of values to its initial state. */
  datatype Crypto = Crypto(h: Hash4, verify: (nat, Felt, Proof) -> bool, commit: seq<Felt> -> Felt)

  /** `leaves` are the values under `root`. */
  ghost predicate Opens(c: Crypto, root: Felt, leaves: seq<Felt>) {
    root == c.commit(leaves)
  }

  /** What the append circuit states about its four committed inputs. */
  ghost predicate Appends(c: Crypto, z: nat, oldRoot: Felt, newRoot: Felt, chain: Felt, start: Felt) {
    forall leaves {:trigger Opens(c, oldRoot, leaves)} :: Opens(c, oldRoot, leaves) && start == 1 + |leaves| ==>
      exists values ::
        |values| == z && LeftFold(c.h, values) == chain && Opens(c, newRoot, leaves + values)
  }

  /** The hash is collision free, and an accepted proof has a true statement behind it. */
  ghost predicate Sound(c: Crypto, z: nat) {
    && Injective4(c.h)
    && forall input, proof :: c.verify(z, input, proof) ==>
         exists o, n, chain, start :: input == c.h(o, n, chain, start) && Appends(c, z, o, n, chain, start)
  }

  /** An update was accepted for `chunk` at leaf `start`. */
  ghost predicate Verified(c: Crypto, z: nat, u: CachedTreeUpdate, chunk: seq<Felt>, start: nat) {
    exists proof :: c.verify(z, c.h(u.oldRoot, u.newRoot, LeftFold(c.h, chunk), start), proof)
  }

  /** An accepted update from the root of `leaves` leads to the root of `leaves + chunk`. */
  lemma {:induction false} VerifiedAppends(c: Crypto, z: nat, u: CachedTreeUpdate, chunk: seq<Felt>, leaves: seq<Felt>)
    requires Sound(c, z) && |chunk| == z && Verified(c, z, u, chunk, 1 + |leaves|)
    requires Opens(c, u.oldRoot, leaves)
    ensures Opens(c, u.newRoot, leaves + chunk)
  {
    var start := 1 + |leaves|;
    var chain := LeftFold(c.h, chunk);
    var proof :| c.verify(z, c.h(u.oldRoot, u.newRoot, chain, start), proof);
    assert Appends(c, z, u.oldRoot, u.newRoot, chain, start);
    var values :| |values| == z && LeftFold(c.h, values) == chain && Opens(c, u.newRoot, leaves + values);
    LeftFoldInjective(c.h, values, chunk);
  }

  datatype TreeError =
    | NonCanonicalFieldElement | TreeIsFull | NotReady
    | ZkpBatchIndexOutOfRange | HashChainNotReady | ProofVerificationFailed

  /** The ZKP batches of the queue batch that begins at `base`: finalized ones, and applied ones. */
  ghost function HeldChunks(c: Config, q: Queue, base: nat): seq<seq<Felt>> {
    if base <= |q.chunks| then q.chunks[base..Min(|q.chunks|, base + c.zkpBatches)] else []
  }

  ghost function HeldOpen(q: Queue, base: nat): seq<Felt> {
    if base == q.filling then q.open else []
  }

  function HeldApplied(c: Config, q: Queue, base: nat): nat {
    if q.applied <= base then 0 else Min(q.applied - base, c.zkpBatches)
  }

  /** A slot stores the queue batch that begins at `base`. */
  ghost predicate Stores(h: Hash4, c: Config, q: Queue, base: nat, b: Batch) {
    && b.zkpBatches == c.zkpBatches && b.zkpBatchSize == c.zkpBatchSize
    && Valid(h, b, HeldChunks(c, q, base), HeldOpen(q, base))
    && b.numInsertedZkpBatches == HeldApplied(c, q, base)
    && b.startIndex == 1 + Times(base, c.zkpBatchSize)
  }

  /** The current slot stores the batch being filled, or the one two earlier until the first value
      resets it. The other slot stores the batch before, or batch 1 while batch 0 is filled. */
  function CurrentBase(c: Config, q: Queue): nat {
    if |q.chunks| == q.filling && q.open == [] && q.filling >= 2 * c.zkpBatches
    then q.filling - 2 * c.zkpBatches else q.filling
  }

  function OtherBase(c: Config, q: Queue): nat {
    if q.filling < c.zkpBatches then c.zkpBatches else q.filling - c.zkpBatches
  }

  /** Every cached update was verified against the chain and leaf of its slot. */
  ghost predicate CacheVerified(c: Crypto, z: nat, b: Batch, chunks: seq<seq<Felt>>) {
    forall i :: 0 <= i < |b.cachedTreeUpdates| && b.cachedTreeUpdates[i].occupied ==>
      i < |chunks| && Verified(c, z, b.cachedTreeUpdates[i], chunks[i], b.startIndex + Times(i, z))
  }

  ghost predicate CacheEmpty(b: Batch) {
    forall i :: 0 <= i < |b.cachedTreeUpdates| ==> !b.cachedTreeUpdates[i].occupied
  }

  /** The tree account's nullifier part. It is a plain record, so an update is a new record. */
  datatype Layout = Layout(
    sequenceNumber: nat, nextIndex: nat, currentlyProcessingBatchIndex: nat, pendingBatchIndex: nat,
    queueNextIndex: nat, closeBeforeIndex: nat, rootCursor: nat, roots: seq<Felt>, batch0: Batch, batch1: Batch)
  {
    function Slot(i: nat): Batch {
      if i == 0 then batch0 else batch1
    }

    function SetSlot(i: nat, b: Batch): Layout {
      if i == 0 then this.(batch0 := b) else this.(batch1 := b)
    }
  }

  /** The counters are a function of the queue. */
  ghost predicate TreeCounters(c: Config, q: Queue, t: Layout) {
    && WellFormed(c, q)
    && t.sequenceNumber == q.applied
    && t.nextIndex == TreeIndex(c, q)
    && t.queueNextIndex == QueueIndex(c, q)
    && t.closeBeforeIndex == Watermark(c, q)
    && t.rootCursor == (if q.applied + 1 == q.done + c.zkpBatches then 0 else q.applied + 1 - q.done)
    && |t.roots| == c.zkpBatches
    && t.currentlyProcessingBatchIndex < 2 && t.pendingBatchIndex < 2
    && (t.pendingBatchIndex == t.currentlyProcessingBatchIndex <==> q.filling != q.done + c.zkpBatches)
  }

  /** The pending slot's batch begins at `PendingBase`. */
  function PendingBase(c: Config, q: Queue): nat {
    if q.filling == q.done + c.zkpBatches then OtherBase(c, q) else CurrentBase(c, q)
  }

  /** The layout represents the queue: its slots store it, and cached updates are verified and sit in
      the pending batch. */
  ghost predicate Represents(crypto: Crypto, c: Config, q: Queue, t: Layout) {
    && TreeCounters(c, q, t)
    && Stores(crypto.h, c, q, CurrentBase(c, q), t.Slot(t.currentlyProcessingBatchIndex))
    && Stores(crypto.h, c, q, OtherBase(c, q), t.Slot(1 - t.currentlyProcessingBatchIndex))
    && CacheVerified(crypto, c.zkpBatchSize, t.Slot(t.pendingBatchIndex), HeldChunks(c, q, PendingBase(c, q)))
    && CacheEmpty(t.Slot(1 - t.pendingBatchIndex))
  }

  const TREE_HEIGHT: nat := 40

  datatype InitError =
    | BatchSizeNotDivisibleByZkpBatchSize | InvalidRootHistoryCapacity | InvalidHeight | ArithmeticOverflow

  /** `init` over a zeroed account with room for `zkpBatches` roots; `anyHeight` is the feature that lets
      tests build small trees. A fresh account represents the empty queue. */
  method Init(crypto: Crypto, batchSize: nat, zkpBatchSize: nat, height: nat, zkpBatches: nat, anyHeight: bool)
    returns (r: Result<Layout, InitError>)
    ensures r.Ok? <==>
              && zkpBatchSize > 0 && zkpBatches > 0 && batchSize == zkpBatches * zkpBatchSize < U64_MAX
              && height < 64 && (anyHeight || height == TREE_HEIGHT)
    ensures r.Ok? ==>
              var c := Config(zkpBatchSize, zkpBatches, Bits.Pow2(height));
              Represents(crypto, c, EMPTY, r.value) && RootsCommit(crypto.commit, c, EMPTY, r.value.roots)
  {
    hide Represents, Bits.Pow2;
    if batchSize == 0 || zkpBatchSize == 0 || batchSize % zkpBatchSize != 0 {
      NotMultiple(batchSize, zkpBatchSize, zkpBatches);
      return Err(BatchSizeNotDivisibleByZkpBatchSize);
    }
    DivModEq(batchSize, zkpBatchSize);
    if batchSize / zkpBatchSize != zkpBatches {
      NotMultiple(batchSize, zkpBatchSize, zkpBatches);
      return Err(InvalidRootHistoryCapacity);
    }
    if height >= 64 || (!anyHeight && height != TREE_HEIGHT) {
      return Err(InvalidHeight);
    }
    if 1 + batchSize > U64_MAX {
      return Err(ArithmeticOverflow);
    }
    var batch0 := NullifierBatch.Init(zkpBatches, zkpBatchSize, 1);
    var batch1 := NullifierBatch.Init(zkpBatches, zkpBatchSize, 1 + batchSize);
    var roots := seq(zkpBatches, i => if i == 0 then crypto.commit([]) else 0);
    var t := Layout(0, 1, 0, 0, 1, 0, 1 % zkpBatches, roots, batch0, batch1);
    Bits.PowPositive(height);
    TimesIsProduct(zkpBatches, zkpBatchSize);
    InitRepresents(crypto, Config(zkpBatchSize, zkpBatches, Bits.Pow2(height)), t);
    r := Ok(t);
  }

  lemma {:induction false} NotMultiple(batchSize: nat, zkpBatchSize: nat, zkpBatches: nat)
    requires
      || batchSize == 0 || zkpBatchSize == 0
      || batchSize % zkpBatchSize != 0 || batchSize / zkpBatchSize != zkpBatches
    ensures !(zkpBatchSize > 0 && zkpBatches > 0 && batchSize == zkpBatches * zkpBatchSize)
  {
    if zkpBatchSize > 0 && batchSize == zkpBatches * zkpBatchSize {
      DivModUnique(batchSize, zkpBatchSize, zkpBatches, 0);
    }
  }

  lemma {:induction false} InitRepresents(crypto: Crypto, c: Config, t: Layout)
    requires ValidConfig(c) && c.capacity >= 1
    requires t.batch0 == NullifierBatch.Init(c.zkpBatches, c.zkpBatchSize, 1)
    requires t.batch1 == NullifierBatch.Init(c.zkpBatches, c.zkpBatchSize, 1 + BatchSize(c))
    requires t.roots == seq(c.zkpBatches, i => if i == 0 then crypto.commit([]) else 0)
    requires t == Layout(0, 1, 0, 0, 1, 0, 1 % c.zkpBatches, t.roots, t.batch0, t.batch1)
    ensures Represents(crypto, c, EMPTY, t) && RootsCommit(crypto.commit, c, EMPTY, t.roots)
  {
    if c.zkpBatches > 1 {
      DivModUnique(1, c.zkpBatches, 0, 1);
    }
    InitialRoots(crypto.commit, c, t.roots);
  }

  /** A value queued in the current slot extends its batch. */
  lemma {:induction false} PushExtends(c: Config, q: Queue, value: Felt)
    requires WellFormed(c, q)
    ensures var q' := Push(c, q, value);
            && HeldChunks(c, q', q.filling) ==
               (if |q.open| + 1 == c.zkpBatchSize then HeldChunks(c, q, q.filling) + [q.open + [value]]
                else HeldChunks(c, q, q.filling))
            && HeldOpen(q', q.filling) == q'.open
  {
  }

  /** A value queued in the current slot leaves the other slot's batch as it was. */
  lemma {:induction false} PushKeepsOther(h: Hash4, c: Config, q: Queue, value: Felt, b: Batch)
    requires WellFormed(c, q) && CanPush(c, q) && Stores(h, c, q, OtherBase(c, q), b)
    ensures Stores(h, c, Push(c, q, value), OtherBase(c, q), b)
    ensures HeldChunks(c, Push(c, q, value), OtherBase(c, q)) == HeldChunks(c, q, OtherBase(c, q))
  {
    hide Valid;
    var q', base := Push(c, q, value), OtherBase(c, q);
    assert HeldChunks(c, q', base) == HeldChunks(c, q, base);
    assert HeldOpen(q', base) == [] == HeldOpen(q, base);
  }

  /** After a value the current slot stores the batch it went to. When that batch is full the slots
      change roles. */
  lemma {:induction false} PushBases(c: Config, q: Queue, value: Felt)
    requires WellFormed(c, q) && CanPush(c, q)
    ensures var q' := Push(c, q, value);
            if q'.filling == q.filling
            then CurrentBase(c, q') == q.filling && OtherBase(c, q') == OtherBase(c, q)
            else CurrentBase(c, q') == OtherBase(c, q) && OtherBase(c, q') == q.filling
  {
  }

  /** The layout after batch `b`, with a new value in it, is stored back in the current slot. */
  function StoreBack(t: Layout, b: Batch): Layout {
    var t' := t.SetSlot(t.currentlyProcessingBatchIndex, b).(queueNextIndex := t.queueNextIndex + 1);
    if b.state == Full then t'.(currentlyProcessingBatchIndex := (t.currentlyProcessingBatchIndex + 1) % 2) else t'
  }

  lemma {:induction false} PushCounters(c: Config, q: Queue, t: Layout, value: Felt, b: Batch)
    requires TreeCounters(c, q, t) && CanPush(c, q)
    requires b.state == Full <==> Push(c, q, value).filling != q.filling
    ensures TreeCounters(c, Push(c, q, value), StoreBack(t, b))
  {
    PushKeepsWellFormed(c, q, value);
  }

  /** The finalized chains of the pending batch only grow, and a batch reused for the value is not
      pending any more. */
  lemma {:induction false} PendingGrows(c: Config, q: Queue, value: Felt)
    requires WellFormed(c, q) && CanPush(c, q)
    ensures var q' := Push(c, q, value);
            if q.filling == q.done + c.zkpBatches
            then
              && PendingBase(c, q') == OtherBase(c, q)
              && HeldChunks(c, q', OtherBase(c, q)) == HeldChunks(c, q, OtherBase(c, q))
            else PendingBase(c, q') == q.filling && HeldChunks(c, q, q.filling) <= HeldChunks(c, q', q.filling)
  {
    PushBases(c, q, value);
    PushExtends(c, q, value);
  }

  /** Cached updates of the pending batch stay verified. */
  lemma {:induction false} PushCache(crypto: Crypto, c: Config, q: Queue, t: Layout, value: Felt, b: Batch)
    requires TreeCounters(c, q, t) && CanPush(c, q)
    requires CacheVerified(crypto, c.zkpBatchSize, t.Slot(t.pendingBatchIndex), HeldChunks(c, q, PendingBase(c, q)))
    requires CacheEmpty(t.Slot(1 - t.pendingBatchIndex))
    requires b.cachedTreeUpdates == t.Slot(t.currentlyProcessingBatchIndex).cachedTreeUpdates
    requires CurrentBase(c, q) == q.filling ==> b.startIndex == t.Slot(t.currentlyProcessingBatchIndex).startIndex
    requires CurrentBase(c, q) != q.filling ==> CacheEmpty(b)
    ensures var t' := StoreBack(t, b);
            && CacheVerified(crypto, c.zkpBatchSize, t'.Slot(t'.pendingBatchIndex),
                             HeldChunks(c, Push(c, q, value), PendingBase(c, Push(c, q, value))))
            && CacheEmpty(t'.Slot(1 - t'.pendingBatchIndex))
  {
    PendingGrows(c, q, value);
  }

  lemma {:induction false} PushRepresents(crypto: Crypto, c: Config, q: Queue, t: Layout, value: Felt, b: Batch)
    requires Represents(crypto, c, q, t) && CanPush(c, q)
    requires Stores(crypto.h, c, Push(c, q, value), q.filling, b)
    requires b.state == Full <==> Push(c, q, value).filling != q.filling
    requires b.cachedTreeUpdates == t.Slot(t.currentlyProcessingBatchIndex).cachedTreeUpdates
    requires CurrentBase(c, q) == q.filling ==> b.startIndex == t.Slot(t.currentlyProcessingBatchIndex).startIndex
    requires CurrentBase(c, q) != q.filling ==> CacheEmpty(b)
    ensures Represents(crypto, c, Push(c, q, value), StoreBack(t, b))
  {
    hide Stores, CacheVerified, CacheEmpty;
    PushCounters(c, q, t, value, b);
    PushCache(crypto, c, q, t, value, b);
    PushBases(c, q, value);
    PushKeepsOther(crypto.h, c, q, value, t.Slot(1 - t.currentlyProcessingBatchIndex));
  }

  /** The current slot can take a value exactly when the queue has room: its batch is being filled,
      or it is two batches old and fully applied. */
  lemma {:induction false} CurrentState(h: Hash4, c: Config, q: Queue, b: Batch)
    requires WellFormed(c, q) && Stores(h, c, q, CurrentBase(c, q), b)
    ensures CurrentBase(c, q) == q.filling ==> b.state == Fill && q.filling < q.done + 2 * c.zkpBatches
    ensures CurrentBase(c, q) != q.filling ==>
              && b.state == (if q.filling < q.done + 2 * c.zkpBatches then Inserted else Full)
              && (b.state.Inserted? ==> CacheEmpty(b))
              && HeldChunks(c, q, q.filling) == [] && q.open == [] && HeldApplied(c, q, q.filling) == 0
              && b.startIndex + 2 * BatchSize(c) == 1 + Times(q.filling, c.zkpBatchSize)
  {
    var base, k, z := CurrentBase(c, q), c.zkpBatches, c.zkpBatchSize;
    if base != q.filling {
      TimesAdd(base, k, z);
      TimesAdd(base + k, k, z);
    }
  }

  /** Make the current batch ready, reusing an applied one, and add the value to it. */
  method AddToCurrentBatch(crypto: Crypto, c: Config, b: Batch, value: Felt, ghost q: Queue)
    returns (r: Result<Batch, BatchError>)
    requires WellFormed(c, q) && Stores(crypto.h, c, q, CurrentBase(c, q), b)
    ensures r.Ok? <==> q.filling < q.done + 2 * c.zkpBatches
    ensures r.Ok? ==>
              && Stores(crypto.h, c, Push(c, q, value), q.filling, r.value)
              && (r.value.state == Full <==> Push(c, q, value).filling != q.filling)
              && r.value.cachedTreeUpdates == b.cachedTreeUpdates
              && (CurrentBase(c, q) == q.filling ==> r.value.startIndex == b.startIndex)
              && (CurrentBase(c, q) != q.filling ==> CacheEmpty(r.value))
  {
    hide Valid;
    ghost var base := CurrentBase(c, q);
    CurrentState(crypto.h, c, q, b);
    var ready := EnsureReadyToFill(crypto.h, b, BatchSize(c), HeldChunks(c, q, base), HeldOpen(q, base));
    if ready.Err? {
      return ready;
    }
    assert Stores(crypto.h, c, q, q.filling, ready.value);
    r := AddToReadyBatch(crypto.h, c, ready.value, value, q);
  }

  method AddToReadyBatch(h: Hash4, c: Config, b: Batch, value: Felt, ghost q: Queue)
    returns (r: Result<Batch, BatchError>)
    requires WellFormed(c, q) && Stores(h, c, q, q.filling, b) && b.state == Fill
    ensures r.Ok? && Stores(h, c, Push(c, q, value), q.filling, r.value)
    ensures r.value.state == Full <==> Push(c, q, value).filling != q.filling
    ensures r.value.cachedTreeUpdates == b.cachedTreeUpdates && r.value.startIndex == b.startIndex
  {
    PushExtends(c, q, value);
    r := AddToHashChain(h, b, value, HeldChunks(c, q, q.filling), q.open);
  }

  /** `insert_nullifier_into_queue`: the value takes the next leaf, or the call fails. */
  method InsertNullifierIntoQueue(crypto: Crypto, c: Config, t: Layout, nullifier: Felt, ghost q: Queue)
    returns (r: Result<(Layout, nat), TreeError>)
    requires Represents(crypto, c, q, t)
    ensures r.Ok? <==> Canonical(nullifier) && CanPush(c, q)
    ensures r.Ok? ==>
              && Represents(crypto, c, Push(c, q, nullifier), r.value.0)
              && r.value.1 == QueueIndex(c, q)
              && r.value.0.roots == t.roots
  {
    hide Valid, CacheVerified, CacheEmpty;
    if !Canonical(nullifier) {
      return Err(NonCanonicalFieldElement);
    }
    var queueIndex := t.queueNextIndex;
    if queueIndex >= c.capacity {
      return Err(TreeIsFull);
    }
    var current := t.currentlyProcessingBatchIndex;
    var added := AddToCurrentBatch(crypto, c, t.Slot(current), nullifier, q);
    if added.Err? {
      return Err(NotReady);
    }
    PushRepresents(crypto, c, q, t, nullifier, added.value);
    r := Ok((StoreBack(t, added.value), queueIndex));
  }
}
