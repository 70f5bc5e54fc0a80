/** Batch append: program-libs/tree/src/nullifier_tree/merkle_tree_update.rs. */
module NullifierUpdate {
  import opened Arithmetic
  import opened Field
  import opened Result
  import opened HashChain
  import opened NullifierBatch
  import opened NullifierQueue
  import opened NullifierTree

  /** The cascade event, without the tree key and batch size it copies. */
  datatype UpdateEvent = UpdateEvent(
    oldNextIndex: nat, startSequenceNumber: nat, firstRootIndex: nat, numUpdate: nat,
    firstZkpBatchIndex: nat, newRoot: Felt)

  /** How many cached updates apply in a row from slot `from`, each starting at the root before it. */
  function CascadeLength(cached: seq<CachedTreeUpdate>, from: nat, root: Felt): nat
    decreases |cached| - from
  {
    if from < |cached| && cached[from].occupied && cached[from].oldRoot == root
    then 1 + CascadeLength(cached, from + 1, cached[from].newRoot)
    else 0
  }

  datatype UpdateData = UpdateData(newRoot: Felt, oldRoot: Felt, zkpBatchIndex: nat, proof: Proof)

  /** The ZKP batch is already in the tree. */
  predicate Replayed(t: Layout, data: UpdateData) {
    data.zkpBatchIndex < t.Slot(t.pendingBatchIndex).numInsertedZkpBatches
  }

  /** The ZKP batch is complete, and the proof holds for its hash chain and its leaves. */
  predicate ProofHolds(crypto: Crypto, c: Config, t: Layout, data: UpdateData) {
    var b, i := t.Slot(t.pendingBatchIndex), data.zkpBatchIndex;
    && i < |b.hashChains| && i < b.numFullZkpBatches
    && crypto.verify(c.zkpBatchSize, crypto.h(data.oldRoot, data.newRoot, b.hashChains[i],
                                              b.startIndex + Times(i, c.zkpBatchSize)), data.proof)
  }

  /** The layout with the update cached for its ZKP batch. */
  function WithCached(t: Layout, data: UpdateData): Layout {
    var b := t.Slot(t.pendingBatchIndex);
    if data.zkpBatchIndex < |b.cachedTreeUpdates|
    then t.SetSlot(t.pendingBatchIndex,
                   CacheTreeUpdate(b, data.zkpBatchIndex, CachedTreeUpdate(data.oldRoot, data.newRoot, true)))
    else t
  }

  /** When `update_tree_from_queue` succeeds. */
  predicate Accepts(crypto: Crypto, c: Config, t: Layout, data: UpdateData) {
    Canonical(data.oldRoot) && Canonical(data.newRoot) && (Replayed(t, data) || ProofHolds(crypto, c, t, data))
  }

  /** `verify_proof_cache_update`: `None` when the ZKP batch is already applied, otherwise the layout
      with the verified update cached in the pending batch. */
  method VerifyProofCacheUpdate(crypto: Crypto, c: Config, t: Layout, data: UpdateData, ghost q: Queue)
    returns (r: Result<Option<Layout>, TreeError>)
    requires Represents(crypto, c, q, t)
    ensures r == Ok(None) <==> Replayed(t, data)
    ensures r.Ok? && r.value.Some? <==> !Replayed(t, data) && ProofHolds(crypto, c, t, data)
    ensures r.Ok? && r.value.Some? ==> r.value.value == WithCached(t, data) && Represents(crypto, c, q, r.value.value)
  {
    hide Represents, Stores;
    PendingStores(crypto, c, q, t);
    var b := t.Slot(t.pendingBatchIndex);
    var i := data.zkpBatchIndex;
    if i >= |b.hashChains| {
      return Err(ZkpBatchIndexOutOfRange);
    }
    if i >= b.numFullZkpBatches {
      return Err(HashChainNotReady);
    }
    if i < b.numInsertedZkpBatches {
      return Ok(None);
    }
    var start := b.startIndex + Times(i, c.zkpBatchSize);
    var publicInput := crypto.h(data.oldRoot, data.newRoot, b.hashChains[i], start);
    if !crypto.verify(c.zkpBatchSize, publicInput, data.proof) {
      return Err(ProofVerificationFailed);
    }
    var u := CachedTreeUpdate(data.oldRoot, data.newRoot, true);
    CacheRepresents(crypto, c, q, t, i, u);
    r := Ok(Some(t.SetSlot(t.pendingBatchIndex, CacheTreeUpdate(b, i, u))));
  }

  lemma {:induction false} CacheStores(h: Hash4, c: Config, q: Queue, base: nat, b: Batch, i: nat, u: CachedTreeUpdate)
    requires Stores(h, c, q, base, b) && i < c.zkpBatches
    requires u.occupied ==> b.numInsertedZkpBatches <= i < b.numFullZkpBatches
    ensures Stores(h, c, q, base, CacheTreeUpdate(b, i, u))
  {
  }

  lemma {:induction false} CacheStaysVerified(
    crypto: Crypto, z: nat, b: Batch, chunks: seq<seq<Felt>>, i: nat, u: CachedTreeUpdate)
    requires CacheVerified(crypto, z, b, chunks) && i < |b.cachedTreeUpdates|
    requires u.occupied ==> i < |chunks| && Verified(crypto, z, u, chunks[i], b.startIndex + Times(i, z))
    ensures CacheVerified(crypto, z, CacheTreeUpdate(b, i, u), chunks)
  {
  }

  /** The pending slot stores the batch at `PendingBase`, the other slot the other batch. */
  lemma {:induction false} PendingStores(crypto: Crypto, c: Config, q: Queue, t: Layout)
    requires Represents(crypto, c, q, t)
    ensures Stores(crypto.h, c, q, PendingBase(c, q), t.Slot(t.pendingBatchIndex))
    ensures var b := t.Slot(t.pendingBatchIndex);
            && |b.cachedTreeUpdates| == |b.hashChains| == c.zkpBatches
            && |HeldChunks(c, q, PendingBase(c, q))| == b.numFullZkpBatches <= c.zkpBatches
            && b.numInsertedZkpBatches <= b.numFullZkpBatches
            && forall i :: b.numInsertedZkpBatches <= i < b.numFullZkpBatches ==>
                 b.hashChains[i] == LeftFold(crypto.h, HeldChunks(c, q, PendingBase(c, q))[i])
  {
    hide CacheVerified, CacheEmpty;
  }

  /** Replacing a cached update by a verified one, or by an empty one, keeps the representation. */
  lemma {:induction false} CacheRepresents(crypto: Crypto, c: Config, q: Queue, t: Layout, i: nat, u: CachedTreeUpdate)
    requires Represents(crypto, c, q, t) && i < c.zkpBatches
    requires var b := t.Slot(t.pendingBatchIndex);
             u.occupied ==>
               && b.numInsertedZkpBatches <= i < b.numFullZkpBatches
               && Verified(crypto, c.zkpBatchSize, u, HeldChunks(c, q, PendingBase(c, q))[i],
                           b.startIndex + Times(i, c.zkpBatchSize))
    ensures Represents(crypto, c, q, t.SetSlot(t.pendingBatchIndex, CacheTreeUpdate(t.Slot(t.pendingBatchIndex), i, u)))
  {
    hide Valid, CacheVerified, CacheEmpty, Stores;
    PendingStores(crypto, c, q, t);
    var p, b := t.pendingBatchIndex, t.Slot(t.pendingBatchIndex);
    var b' := CacheTreeUpdate(b, i, u);
    CacheStores(crypto.h, c, q, PendingBase(c, q), b, i, u);
    CacheStaysVerified(crypto, c.zkpBatchSize, b, HeldChunks(c, q, PendingBase(c, q)), i, u);
    assert t.SetSlot(p, b').Slot(p) == b' && t.SetSlot(p, b').Slot(1 - p) == t.Slot(1 - p);
  }

  /** The pending slot has an unapplied chain only when it stores the batch at `q.done`. */
  lemma {:induction false} PendingIsDone(h: Hash4, c: Config, q: Queue, b: Batch)
    requires WellFormed(c, q) && Stores(h, c, q, PendingBase(c, q), b)
    requires b.numInsertedZkpBatches < b.numFullZkpBatches
    ensures PendingBase(c, q) == q.done && q.applied < |q.chunks|
    ensures b.numInsertedZkpBatches == q.applied - q.done
    ensures HeldChunks(c, q, q.done)[q.applied - q.done] == q.chunks[q.applied]
    ensures b.startIndex + Times(q.applied - q.done, c.zkpBatchSize) == TreeIndex(c, q)
  {
    TimesAdd(q.done, q.applied - q.done, c.zkpBatchSize);
  }

  /** An update of the pending batch leaves every other batch as it was. */
  /** A proof for ZKP batch `i` of the pending queue batch is accepted exactly when that batch is complete
      and the proof holds for both roots, the fold of its values in queue order and its first leaf. */
  ghost predicate ProofForQueue(crypto: Crypto, c: Config, q: Queue, data: UpdateData) {
    var k := q.done + data.zkpBatchIndex;
    && data.zkpBatchIndex < c.zkpBatches && k < |q.chunks|
    && crypto.verify(c.zkpBatchSize, crypto.h(data.oldRoot, data.newRoot, LeftFold(crypto.h, q.chunks[k]),
                                              1 + Times(k, c.zkpBatchSize)), data.proof)
  }

  lemma {:induction false} ProofHoldsIff(crypto: Crypto, c: Config, q: Queue, t: Layout, data: UpdateData)
    requires Represents(crypto, c, q, t) && !Replayed(t, data)
    ensures ProofHolds(crypto, c, t, data) <==> ProofForQueue(crypto, c, q, data)
  {
    hide Represents, LeftFold;
    RepresentsCounters(crypto, c, q, t);
    PendingStores(crypto, c, q, t);
    TimesAdd(PendingBase(c, q), data.zkpBatchIndex, c.zkpBatchSize);
  }

  /** A replay is for a ZKP batch of the pending queue batch that is already in the tree. */
  lemma {:induction false} ReplayedIff(crypto: Crypto, c: Config, q: Queue, t: Layout, data: UpdateData)
    requires Represents(crypto, c, q, t) && (q.applied < |q.chunks| || q.open != [])
    ensures Replayed(t, data) <==> q.done + data.zkpBatchIndex < q.applied
  {
    hide Represents, Valid;
    RepresentsCounters(crypto, c, q, t);
    PendingStores(crypto, c, q, t);
  }

  lemma {:induction false} ApplyKeepsOther(h: Hash4, c: Config, q: Queue, base: nat, b: Batch)
    requires WellFormed(c, q) && q.applied < |q.chunks| && Stores(h, c, q, base, b)
    requires base + c.zkpBatches <= q.done || q.done + c.zkpBatches <= base
    ensures Stores(h, c, Apply(c, q), base, b)
  {
    hide Valid;
    assert HeldChunks(c, Apply(c, q), base) == HeldChunks(c, q, base);
  }

  /** Marking the next chain applied moves the pending batch with the queue. */
  lemma {:induction false} ApplyMoves(h: Hash4, c: Config, q: Queue, b: Batch, b': Batch)
    requires WellFormed(c, q) && q.applied < |q.chunks| && Stores(h, c, q, q.done, b)
    requires Valid(h, b', HeldChunks(c, q, q.done), HeldOpen(q, q.done))
    requires b'.numInsertedZkpBatches == b.numInsertedZkpBatches + 1 && b'.startIndex == b.startIndex
    requires b'.zkpBatches == c.zkpBatches && b'.zkpBatchSize == c.zkpBatchSize
    ensures Stores(h, c, Apply(c, q), q.done, b')
    ensures b'.state == BatchState.Inserted <==> Apply(c, q).done != q.done
  {
  }

  function LatestRootIndex(t: Layout): nat
    requires |t.roots| > 0
  {
    (t.rootCursor + |t.roots| - 1) % |t.roots|
  }

  lemma {:induction false} LatestRoot(c: Config, q: Queue, t: Layout)
    requires TreeCounters(c, q, t)
    ensures LatestRootIndex(t) == q.applied - q.done == RootSlot(c, q, q.applied) < |t.roots|
  {
    var k := |t.roots|;
    if t.rootCursor == 0 {
      DivModUnique(k - 1, k, 0, k - 1);
    } else {
      DivModUnique(t.rootCursor + k - 1, k, 1, t.rootCursor - 1);
    }
  }

  /** The layout after the next ZKP batch of the pending batch, now `b`, is applied with root `root`. */
  function Advanced(c: Config, t: Layout, b: Batch, root: Felt): Layout
    requires t.rootCursor < |t.roots|
  {
    var t' := t.SetSlot(t.pendingBatchIndex, b).(
      nextIndex := t.nextIndex + c.zkpBatchSize,
      sequenceNumber := t.sequenceNumber + 1,
      roots := t.roots[t.rootCursor := root],
      rootCursor := (t.rootCursor + 1) % |t.roots|);
    if b.state == BatchState.Inserted
    then t'.(closeBeforeIndex := if t.closeBeforeIndex < b.startIndex then b.startIndex else t.closeBeforeIndex,
             pendingBatchIndex := (t.pendingBatchIndex + 1) % 2)
    else t'
  }

  lemma {:induction false} AdvanceCounters(c: Config, q: Queue, t: Layout, b: Batch, root: Felt)
    requires TreeCounters(c, q, t) && q.applied < |q.chunks|
    requires b.state == BatchState.Inserted <==> Apply(c, q).done != q.done
    requires b.startIndex == 1 + Times(q.done, c.zkpBatchSize)
    ensures TreeCounters(c, Apply(c, q), Advanced(c, t, b, root))
    ensures Advanced(c, t, b, root).roots == t.roots[RootSlot(c, Apply(c, q), q.applied + 1) := root]
  {
    ApplyKeepsWellFormed(c, q);
    var k := |t.roots|;
    if t.rootCursor + 1 == k {
      DivModUnique(k, k, 1, 0);
    } else {
      DivModUnique(t.rootCursor + 1, k, 0, t.rootCursor + 1);
    }
    if q.done >= c.zkpBatches {
      TimesMono(q.done - c.zkpBatches, q.done, c.zkpBatchSize);
    }
  }

  /** The batch in the slot that is not pending begins a whole batch before or after `q.done`. */
  lemma {:induction false} OtherSlotIsApart(c: Config, q: Queue)
    requires WellFormed(c, q) && PendingBase(c, q) == q.done
    ensures q.filling == q.done + c.zkpBatches ==>
              CurrentBase(c, q) == q.done + c.zkpBatches || CurrentBase(c, q) + c.zkpBatches == q.done
    ensures q.filling != q.done + c.zkpBatches ==>
              OtherBase(c, q) == q.done + c.zkpBatches || OtherBase(c, q) + c.zkpBatches == q.done
  {
  }

  lemma {:induction false} AdvanceSlots(crypto: Crypto, c: Config, q: Queue, t: Layout, b: Batch, root: Felt)
    requires t.rootCursor < |t.roots|
    requires Represents(crypto, c, q, t) && q.applied < |q.chunks| && PendingBase(c, q) == q.done
    requires Stores(crypto.h, c, Apply(c, q), q.done, b)
    ensures var t' := Advanced(c, t, b, root);
            && Stores(crypto.h, c, Apply(c, q), CurrentBase(c, q), t'.Slot(t'.currentlyProcessingBatchIndex))
            && Stores(crypto.h, c, Apply(c, q), OtherBase(c, q), t'.Slot(1 - t'.currentlyProcessingBatchIndex))
  {
    hide Valid, CacheVerified, CacheEmpty;
    OtherSlotIsApart(c, q);
    if t.pendingBatchIndex == t.currentlyProcessingBatchIndex {
      ApplyKeepsOther(crypto.h, c, q, OtherBase(c, q), t.Slot(1 - t.currentlyProcessingBatchIndex));
    } else {
      ApplyKeepsOther(crypto.h, c, q, CurrentBase(c, q), t.Slot(t.currentlyProcessingBatchIndex));
    }
  }

  /** A fully applied batch has nothing cached. */
  lemma {:induction false} AppliedCacheEmpty(h: Hash4, b: Batch, chunks: seq<seq<Felt>>, open: seq<Felt>)
    requires Valid(h, b, chunks, open) && b.state == BatchState.Inserted
    ensures CacheEmpty(b)
  {
  }

  /** The batch that becomes pending has nothing cached, nor has the one that was fully applied. */
  lemma {:induction false} AdvanceCache(crypto: Crypto, c: Config, q: Queue, t: Layout, b: Batch, root: Felt)
    requires TreeCounters(c, q, t) && q.applied < |q.chunks| && PendingBase(c, q) == q.done
    requires CacheEmpty(t.Slot(1 - t.pendingBatchIndex))
    requires Stores(crypto.h, c, Apply(c, q), q.done, b)
    requires b.state == BatchState.Inserted <==> Apply(c, q).done != q.done
    requires CacheVerified(crypto, c.zkpBatchSize, b, HeldChunks(c, q, q.done))
    ensures var t' := Advanced(c, t, b, root);
            && CacheVerified(crypto, c.zkpBatchSize, t'.Slot(t'.pendingBatchIndex),
                             HeldChunks(c, Apply(c, q), PendingBase(c, Apply(c, q))))
            && CacheEmpty(t'.Slot(1 - t'.pendingBatchIndex))
  {
    hide Valid;
    var q' := Apply(c, q);
    if q'.done == q.done {
      assert PendingBase(c, q') == q.done && HeldChunks(c, q', q.done) == HeldChunks(c, q, q.done);
    } else {
      AppliedCacheEmpty(crypto.h, b, HeldChunks(c, q', q.done), HeldOpen(q', q.done));
    }
  }

  lemma {:induction false} AdvanceRepresents(crypto: Crypto, c: Config, q: Queue, t: Layout, b: Batch, root: Felt)
    requires t.rootCursor < |t.roots|
    requires Represents(crypto, c, q, t) && q.applied < |q.chunks| && PendingBase(c, q) == q.done
    requires Stores(crypto.h, c, Apply(c, q), q.done, b)
    requires b.state == BatchState.Inserted <==> Apply(c, q).done != q.done
    requires CacheVerified(crypto, c.zkpBatchSize, b, HeldChunks(c, q, q.done))
    ensures Represents(crypto, c, Apply(c, q), Advanced(c, t, b, root))
    ensures Advanced(c, t, b, root).roots == t.roots[RootSlot(c, Apply(c, q), q.applied + 1) := root]
  {
    hide Valid, CacheVerified, CacheEmpty;
    AdvanceCounters(c, q, t, b, root);
    AdvanceSlots(crypto, c, q, t, b, root);
    AdvanceCache(crypto, c, q, t, b, root);
    assert CurrentBase(c, Apply(c, q)) == CurrentBase(c, q) && OtherBase(c, Apply(c, q)) == OtherBase(c, q);
  }

  lemma {:induction false} MarkedCache(crypto: Crypto, z: nat, b: Batch, b': Batch, chunks: seq<seq<Felt>>, i: nat)
    requires CacheVerified(crypto, z, b, chunks) && i < |b.cachedTreeUpdates|
    requires b'.cachedTreeUpdates == b.cachedTreeUpdates[i := EMPTY_UPDATE] && b'.startIndex == b.startIndex
    ensures CacheVerified(crypto, z, b', chunks)
  {
  }

  /** The cached update of the next ZKP batch was verified against its values and leaf. */
  lemma {:induction false} NextIsVerified(crypto: Crypto, c: Config, q: Queue, b: Batch)
    requires WellFormed(c, q) && Stores(crypto.h, c, q, PendingBase(c, q), b)
    requires b.numInsertedZkpBatches < c.zkpBatches && b.cachedTreeUpdates[b.numInsertedZkpBatches].occupied
    requires CacheVerified(crypto, c.zkpBatchSize, b, HeldChunks(c, q, PendingBase(c, q)))
    ensures q.applied < |q.chunks|
    ensures Verified(crypto, c.zkpBatchSize, b.cachedTreeUpdates[b.numInsertedZkpBatches],
                     q.chunks[q.applied], TreeIndex(c, q))
  {
    PendingIsDone(crypto.h, c, q, b);
  }

  /** The pending slot stores the pending batch, and its cached updates are for unapplied chains. */
  lemma {:induction false} NextInRange(crypto: Crypto, c: Config, q: Queue, t: Layout)
    requires Represents(crypto, c, q, t)
    requires var b := t.Slot(t.pendingBatchIndex);
             b.numInsertedZkpBatches < c.zkpBatches && b.cachedTreeUpdates[b.numInsertedZkpBatches].occupied
    ensures var b := t.Slot(t.pendingBatchIndex);
            && b.numInsertedZkpBatches < b.numFullZkpBatches && b.state != BatchState.Inserted
            && |b.cachedTreeUpdates| == c.zkpBatches
  {
    PendingStores(crypto, c, q, t);
  }

  /** The pending slot after an update: the same batch one on, or the other batch with no updates. */
  lemma {:induction false} AdvancedPending(crypto: Crypto, c: Config, q: Queue, t: Layout, b: Batch, root: Felt)
    requires t.rootCursor < |t.roots|
    requires Represents(crypto, c, q, t) && q.applied < |q.chunks|
    requires Stores(crypto.h, c, Apply(c, q), q.done, b)
    requires b.state == BatchState.Inserted <==> Apply(c, q).done != q.done
    ensures var t' := Advanced(c, t, b, root);
            if Apply(c, q).done == q.done
            then t'.pendingBatchIndex == t.pendingBatchIndex && t'.Slot(t.pendingBatchIndex) == b
            else b.numInsertedZkpBatches == c.zkpBatches && CacheEmpty(t'.Slot(t'.pendingBatchIndex))
  {
    hide Valid;
  }

  /** Steps 1 to 4 of one round of `apply_cached_tree_updates`: apply the cached update `u` of the
      pending batch's next ZKP batch. None of the source's error branches is reachable. */
  method ApplyNext(crypto: Crypto, c: Config, t: Layout, ghost q: Queue) returns (r: Result<Layout, TreeError>)
    requires Represents(crypto, c, q, t)
    requires var b := t.Slot(t.pendingBatchIndex);
             b.numInsertedZkpBatches < c.zkpBatches && b.cachedTreeUpdates[b.numInsertedZkpBatches].occupied
    ensures q.applied < |q.chunks| && PendingBase(c, q) == q.done
    ensures r.Ok? && Represents(crypto, c, Apply(c, q), r.value)
    ensures var b := t.Slot(t.pendingBatchIndex);
            var u := b.cachedTreeUpdates[b.numInsertedZkpBatches];
            && r.value.roots == t.roots[RootSlot(c, Apply(c, q), q.applied + 1) := u.newRoot]
            && Verified(crypto, c.zkpBatchSize, u, q.chunks[q.applied], TreeIndex(c, q))
            && b.numInsertedZkpBatches == q.applied - q.done
            && (Apply(c, q).done == q.done ==>
                  && r.value.pendingBatchIndex == t.pendingBatchIndex
                  && r.value.Slot(t.pendingBatchIndex).numInsertedZkpBatches == b.numInsertedZkpBatches + 1
                  && r.value.Slot(t.pendingBatchIndex).cachedTreeUpdates
                     == b.cachedTreeUpdates[b.numInsertedZkpBatches := EMPTY_UPDATE])
            && (Apply(c, q).done != q.done ==>
                  && b.numInsertedZkpBatches + 1 == c.zkpBatches
                  && CacheEmpty(r.value.Slot(r.value.pendingBatchIndex)))
  {
    hide Valid, CacheVerified, CacheEmpty;
    var b := t.Slot(t.pendingBatchIndex);
    var index := b.numInsertedZkpBatches;
    NextInRange(crypto, c, q, t);
    var u := b.cachedTreeUpdates[index];
    PendingStores(crypto, c, q, t);
    PendingIsDone(crypto.h, c, q, b);
    ApplyKeepsWellFormed(c, q);
    if t.nextIndex + c.zkpBatchSize > c.capacity {
      return Err(TreeIsFull);
    }
    var marked := MarkAsInserted(crypto.h, b, HeldChunks(c, q, q.done), HeldOpen(q, q.done));
    if marked.Err? {
      return Err(NotReady);
    }
    NextIsVerified(crypto, c, q, b);
    MarkedCache(crypto, c.zkpBatchSize, b, marked.value, HeldChunks(c, q, q.done), index);
    ApplyMoves(crypto.h, c, q, b, marked.value);
    AdvanceRepresents(crypto, c, q, t, marked.value, u.newRoot);
    AdvancedPending(crypto, c, q, t, marked.value, u.newRoot);
    r := Ok(Advanced(c, t, marked.value, u.newRoot));
  }

  /** The root after a verified update from the current root commits one more ZKP batch. */
  lemma {:induction false} NextRootCommits(crypto: Crypto, c: Config, q: Queue, u: CachedTreeUpdate)
    requires Sound(crypto, c.zkpBatchSize) && WellFormed(c, q) && q.applied < |q.chunks|
    requires u.oldRoot == crypto.commit(Flatten(q.chunks[..q.applied]))
    requires Verified(crypto, c.zkpBatchSize, u, q.chunks[q.applied], TreeIndex(c, q))
    ensures u.newRoot == crypto.commit(Flatten(q.chunks[..q.applied + 1]))
  {
    var leaves := Flatten(q.chunks[..q.applied]);
    FlattenLength(c, q.chunks, q.applied);
    assert Opens(crypto, u.oldRoot, leaves);
    VerifiedAppends(crypto, c.zkpBatchSize, u, q.chunks[q.applied], leaves);
    assert q.chunks[..q.applied + 1][..q.applied] == q.chunks[..q.applied];
  }

  lemma {:induction false} RootStep(crypto: Crypto, c: Config, q: Queue, roots: seq<Felt>, u: CachedTreeUpdate)
    requires Sound(crypto, c.zkpBatchSize) && WellFormed(c, q) && q.applied < |q.chunks|
    requires RootsCommit(crypto.commit, c, q, roots) && u.oldRoot == roots[RootSlot(c, q, q.applied)]
    requires Verified(crypto, c.zkpBatchSize, u, q.chunks[q.applied], TreeIndex(c, q))
    ensures WellFormed(c, Apply(c, q))
    ensures RootsCommit(crypto.commit, c, Apply(c, q), roots[RootSlot(c, Apply(c, q), q.applied + 1) := u.newRoot])
  {
    NextRootCommits(crypto, c, q, u);
    ApplyRoot(crypto.commit, c, q, roots, u.newRoot);
  }

  lemma {:induction false} CascadeIgnoresBefore(
    a: seq<CachedTreeUpdate>, b: seq<CachedTreeUpdate>, from: nat, root: Felt)
    requires |a| == |b| && forall i :: from <= i < |a| ==> a[i] == b[i]
    ensures CascadeLength(a, from, root) == CascadeLength(b, from, root)
    decreases |a| - from
  {
    if from < |a| && a[from].occupied && a[from].oldRoot == root {
      CascadeIgnoresBefore(a, b, from + 1, a[from].newRoot);
    }
  }

  ghost function ApplyMany(c: Config, q: Queue, n: nat): Queue {
    if n == 0 then q else Apply(c, ApplyMany(c, q, n - 1))
  }

  function CurrentRoot(t: Layout): Felt
    requires |t.roots| > 0
  {
    t.roots[LatestRootIndex(t)]
  }

  /** The updates the pending batch can apply in a row from the current root. */
  function Cascade(t: Layout): nat
    requires |t.roots| > 0
  {
    var b := t.Slot(t.pendingBatchIndex);
    CascadeLength(b.cachedTreeUpdates, b.numInsertedZkpBatches, CurrentRoot(t))
  }

  /** One applied update takes one off the chain of updates that can be applied. */
  lemma {:induction false} CascadeStep(b: Batch, b': Batch, u: CachedTreeUpdate, root: Felt, k: nat)
    requires b.numInsertedZkpBatches < |b.cachedTreeUpdates| == |b'.cachedTreeUpdates| == k
    requires u == b.cachedTreeUpdates[b.numInsertedZkpBatches] && u.occupied && u.oldRoot == root
    requires
      || (&& b'.numInsertedZkpBatches == b.numInsertedZkpBatches + 1
          && b'.cachedTreeUpdates == b.cachedTreeUpdates[b.numInsertedZkpBatches := EMPTY_UPDATE])
      || (b.numInsertedZkpBatches + 1 == k && CacheEmpty(b'))
    ensures CascadeLength(b.cachedTreeUpdates, b.numInsertedZkpBatches, root)
            == 1 + CascadeLength(b'.cachedTreeUpdates, b'.numInsertedZkpBatches, u.newRoot)
  {
    if b'.numInsertedZkpBatches == b.numInsertedZkpBatches + 1
       && b'.cachedTreeUpdates == b.cachedTreeUpdates[b.numInsertedZkpBatches := EMPTY_UPDATE]
    {
      CascadeIgnoresBefore(b.cachedTreeUpdates, b'.cachedTreeUpdates, b'.numInsertedZkpBatches, u.newRoot);
    }
  }

  /** The current root before and after an update, read from the history. */
  lemma {:induction false} RootsAround(c: Config, q: Queue, t: Layout, t': Layout, root: Felt)
    requires TreeCounters(c, q, t) && TreeCounters(c, Apply(c, q), t')
    requires t'.roots == t.roots[RootSlot(c, Apply(c, q), q.applied + 1) := root]
    ensures CurrentRoot(t) == t.roots[RootSlot(c, q, q.applied)] && CurrentRoot(t') == root
    ensures LatestRootIndex(t') == RootSlot(c, Apply(c, q), q.applied + 1)
  {
    LatestRoot(c, q, t);
    LatestRoot(c, Apply(c, q), t');
  }

  /** One round of `apply_cached_tree_updates` whose cached update starts at the current root. */
  method ApplyRound(crypto: Crypto, c: Config, t: Layout, ghost q: Queue, ghost sound: bool)
    returns (r: Result<Layout, TreeError>)
    requires Represents(crypto, c, q, t)
    requires var b := t.Slot(t.pendingBatchIndex);
             && b.numInsertedZkpBatches < c.zkpBatches && b.cachedTreeUpdates[b.numInsertedZkpBatches].occupied
             && b.cachedTreeUpdates[b.numInsertedZkpBatches].oldRoot == CurrentRoot(t)
    requires sound ==> Sound(crypto, c.zkpBatchSize) && RootsCommit(crypto.commit, c, q, t.roots)
    ensures q.applied < |q.chunks|
    ensures r.Ok? && Represents(crypto, c, Apply(c, q), r.value)
    ensures var b := t.Slot(t.pendingBatchIndex);
            && CurrentRoot(r.value) == b.cachedTreeUpdates[b.numInsertedZkpBatches].newRoot
            && b.numInsertedZkpBatches == q.applied - q.done
    ensures LatestRootIndex(r.value) == RootSlot(c, Apply(c, q), q.applied + 1)
    ensures Cascade(t) == 1 + Cascade(r.value)
    ensures sound ==> RootsCommit(crypto.commit, c, Apply(c, q), r.value.roots)
  {
    hide Stores, CacheVerified, CacheEmpty;
    PendingStores(crypto, c, q, t);
    ghost var b := t.Slot(t.pendingBatchIndex);
    ghost var u := b.cachedTreeUpdates[b.numInsertedZkpBatches];
    r := ApplyNext(crypto, c, t, q);
    PendingStores(crypto, c, Apply(c, q), r.value);
    RootsAround(c, q, t, r.value, u.newRoot);
    CascadeStep(b, r.value.Slot(r.value.pendingBatchIndex), u, CurrentRoot(t), c.zkpBatches);
    if sound {
      RootStep(crypto, c, q, t.roots, u);
    }
  }

  /** The update the next round looks at: the pending batch's next ZKP batch, if it has one cached. */
  function NextCached(t: Layout): Option<CachedTreeUpdate> {
    var b := t.Slot(t.pendingBatchIndex);
    if b.numInsertedZkpBatches < |b.cachedTreeUpdates| && b.cachedTreeUpdates[b.numInsertedZkpBatches].occupied
    then Some(b.cachedTreeUpdates[b.numInsertedZkpBatches]) else None
  }

  /** The event after one more update. */
  function Record(event: Option<UpdateEvent>, before: Layout, after: Layout, u: CachedTreeUpdate): UpdateEvent
    requires |after.roots| > 0
  {
    var e := if event.Some? then event.value
             else UpdateEvent(before.nextIndex, after.sequenceNumber, LatestRootIndex(after), 0,
                              before.Slot(before.pendingBatchIndex).numInsertedZkpBatches, u.newRoot);
    e.(numUpdate := e.numUpdate + 1, newRoot := u.newRoot)
  }

  /** The event describes `n` updates of the queue `q` that lead to `root`. */
  ghost predicate Describes(c: Config, q: Queue, n: nat, root: Felt, event: Option<UpdateEvent>)
    requires WellFormed(c, q)
  {
    if n == 0 then event.None?
    else event == Some(UpdateEvent(TreeIndex(c, q), q.applied + 1, RootSlot(c, Apply(c, q), q.applied + 1), n,
                                   q.applied - q.done, root))
  }

  lemma {:induction false} RecordDescribes(
    c: Config, q: Queue, n: nat, root: Felt, event: Option<UpdateEvent>,
    before: Layout, after: Layout, u: CachedTreeUpdate)
    requires WellFormed(c, q) && Describes(c, q, n, root, event) && |after.roots| > 0
    requires n == 0 ==>
               && TreeCounters(c, q, before) && after.sequenceNumber == q.applied + 1
               && LatestRootIndex(after) == RootSlot(c, Apply(c, q), q.applied + 1)
               && before.Slot(before.pendingBatchIndex).numInsertedZkpBatches == q.applied - q.done
    ensures Describes(c, q, n + 1, u.newRoot, Some(Record(event, before, after, u)))
  {
  }

  lemma {:induction false} CascadeStops(t: Layout)
    requires |t.roots| > 0 && (NextCached(t).None? || NextCached(t).value.oldRoot != CurrentRoot(t))
    ensures Cascade(t) == 0
  {
  }

  /** Clear the update the next round looks at. */
  function Evict(t: Layout): Layout
    requires NextCached(t).Some?
  {
    var b := t.Slot(t.pendingBatchIndex);
    t.SetSlot(t.pendingBatchIndex, CacheTreeUpdate(b, b.numInsertedZkpBatches, EMPTY_UPDATE))
  }

  lemma {:induction false} EvictClears(t: Layout)
    requires NextCached(t).Some? && |t.roots| > 0 && t.pendingBatchIndex < 2
    ensures NextCached(Evict(t)).None? && Evict(t).roots == t.roots && CurrentRoot(Evict(t)) == CurrentRoot(t)
  {
  }

  /** The state after `n` rounds that started from queue `q` with `total` updates to apply. */
  ghost predicate AfterRounds(
    crypto: Crypto, c: Config, q: Queue, total: nat, sound: bool, n: nat, t: Layout, event: Option<UpdateEvent>)
  {
    && WellFormed(c, q) && |t.roots| > 0
    && Represents(crypto, c, ApplyMany(c, q, n), t)
    && n + Cascade(t) == total
    && Describes(c, q, n, CurrentRoot(t), event)
    && (sound ==> RootsCommit(crypto.commit, c, ApplyMany(c, q, n), t.roots))
  }

  lemma {:induction false} RepresentsCounters(crypto: Crypto, c: Config, q: Queue, t: Layout)
    requires Represents(crypto, c, q, t)
    ensures TreeCounters(c, q, t)
  {
  }

  predicate CanApply(t: Layout)
    requires |t.roots| > 0
  {
    NextCached(t).Some? && NextCached(t).value.oldRoot == CurrentRoot(t)
  }

  method CascadeRound(
    crypto: Crypto, c: Config, ghost q: Queue, ghost total: nat, ghost sound: bool, ghost n: nat,
    t: Layout, event: Option<UpdateEvent>)
    returns (t': Layout, event': Option<UpdateEvent>)
    requires AfterRounds(crypto, c, q, total, sound, n, t, event)
    requires CanApply(t)
    requires sound ==> Sound(crypto, c.zkpBatchSize)
    ensures AfterRounds(crypto, c, q, total, sound, n + 1, t', event')
  {
    hide Represents, Stores, Sound, RootsCommit, LatestRootIndex, CascadeLength;
    RepresentsCounters(crypto, c, ApplyMany(c, q, n), t);
    PendingStores(crypto, c, ApplyMany(c, q, n), t);
    var next := ApplyRound(crypto, c, t, ApplyMany(c, q, n), sound);
    RepresentsCounters(crypto, c, ApplyMany(c, q, n + 1), next.value);
    RecordDescribes(c, q, n, CurrentRoot(t), event, t, next.value, NextCached(t).value);
    t', event' := next.value, Some(Record(event, t, next.value, NextCached(t).value));
  }

  /** The rounds of `apply_cached_tree_updates`, up to the first update that cannot be applied. */
  method ApplyCascade(crypto: Crypto, c: Config, t: Layout, ghost q: Queue, ghost sound: bool)
    returns (t': Layout, event: Option<UpdateEvent>, ghost n: nat)
    requires Represents(crypto, c, q, t)
    requires sound ==> Sound(crypto, c.zkpBatchSize) && RootsCommit(crypto.commit, c, q, t.roots)
    ensures AfterRounds(crypto, c, q, Cascade(t), sound, n, t', event)
    ensures !CanApply(t')
  {
    hide Represents, RootsCommit, Cascade, CurrentRoot, Sound;
    RepresentsCounters(crypto, c, q, t);
    t', event, n := t, None, 0;
    while CanApply(t')
      invariant AfterRounds(crypto, c, q, Cascade(t), sound, n, t', event)
      decreases Cascade(t) - n
    {
      t', event := CascadeRound(crypto, c, q, Cascade(t), sound, n, t', event);
      n := n + 1;
    }
  }

  /** `apply_cached_tree_updates`: exactly the longest chain of cached updates is applied, in order,
      and the event describes it. An update that does not start at the current root is evicted. */
  method ApplyCachedTreeUpdates(crypto: Crypto, c: Config, t: Layout, ghost q: Queue, ghost sound: bool)
    returns (t': Layout, event: Option<UpdateEvent>, ghost n: nat)
    requires Represents(crypto, c, q, t)
    requires sound ==> Sound(crypto, c.zkpBatchSize) && RootsCommit(crypto.commit, c, q, t.roots)
    ensures NextCached(t').None? && n == Cascade(t)
    ensures Represents(crypto, c, ApplyMany(c, q, n), t')
    ensures Describes(c, q, n, CurrentRoot(t'), event)
    ensures sound ==> RootsCommit(crypto.commit, c, ApplyMany(c, q, n), t'.roots)
  {
    t', event, n := ApplyCascade(crypto, c, t, q, sound);
    CascadeStops(t');
    if NextCached(t').Some? {
      EvictClears(t');
      ghost var evicted := t'.Slot(t'.pendingBatchIndex).numInsertedZkpBatches;
      CacheRepresents(crypto, c, ApplyMany(c, q, n), t', evicted, EMPTY_UPDATE);
      t' := Evict(t');
    }
  }

  /** `update_tree_from_queue`: verify one proof, then apply what it unblocks. */
  method UpdateTreeFromQueue(crypto: Crypto, c: Config, t: Layout, data: UpdateData, ghost q: Queue, ghost sound: bool)
    returns (r: Result<(Layout, Option<UpdateEvent>), TreeError>, ghost n: nat)
    requires Represents(crypto, c, q, t)
    requires sound ==> Sound(crypto, c.zkpBatchSize) && RootsCommit(crypto.commit, c, q, t.roots)
    ensures r.Ok? ==>
              && Represents(crypto, c, ApplyMany(c, q, n), r.value.0)
              && Describes(c, q, n, CurrentRoot(r.value.0), r.value.1)
              && (sound ==> RootsCommit(crypto.commit, c, ApplyMany(c, q, n), r.value.0.roots))
    ensures r.Ok? <==> Accepts(crypto, c, t, data)
    ensures r.Ok? && Replayed(t, data) ==> r == Ok((t, None)) && n == 0
    ensures r.Ok? && !Replayed(t, data) ==> |WithCached(t, data).roots| > 0 && n == Cascade(WithCached(t, data))
  {
    hide Represents, RootsCommit, Sound, Cascade;
    n := 0;
    if !Canonical(data.oldRoot) || !Canonical(data.newRoot) {
      return Err(NonCanonicalFieldElement), 0;
    }
    var cached := VerifyProofCacheUpdate(crypto, c, t, data, q);
    match cached {
      case Err(error) => r := Err(error);
      case Ok(None) => r := Ok((t, None));
      case Ok(Some(t')) =>
        RepresentsCounters(crypto, c, q, t');
        var after, event;
        after, event, n := ApplyCachedTreeUpdates(crypto, c, t', q, sound);
        r := Ok((after, event));
    }
  }
}
