/** One of the two batches of the nullifier queue: program-libs/tree/src/nullifier_tree/batch.rs. */
module NullifierBatch {
  import opened Field
  import opened Result
  import opened HashChain

  datatype BatchState = Fill | Inserted | Full

  datatype CachedTreeUpdate = CachedTreeUpdate(oldRoot: Felt, newRoot: Felt, occupied: bool)

  const EMPTY_UPDATE := CachedTreeUpdate(0, 0, false)

  datatype BatchError = BatchNotReady | BatchAlreadyInserted

  /** Values of an open chain of `n` values that wait in the two-slot buffer. */
  function NumPending(n: nat): (p: nat)
    ensures p <= 2 && p <= n && (n > 0 ==> p < n && (n - p) % 3 == 1)
  {
    if n == 0 then 0 else (n - 1) % 3
  }

  lemma {:induction false} NumPendingStep(n: nat)
    requires n > 0
    ensures NumPending(n + 1) == if NumPending(n) == 2 then 0 else NumPending(n) + 1
  {
  }

  /** The state of a chain that has taken in the values `open`: a head, full groups of three,
      and the last values waiting in `pending`. */
  ghost predicate Streams(h: Hash4, chain: Felt, pending: seq<Felt>, open: seq<Felt>)
    requires |pending| == 2
  {
    |open| > 0 ==>
      var cut := |open| - NumPending(|open|);
      chain == LeftFold(h, open[..cut]) && pending[..NumPending(|open|)] == open[cut..]
  }

  lemma {:induction false} StreamBuffer(h: Hash4, chain: Felt, pending: seq<Felt>, open: seq<Felt>, value: Felt)
    requires |pending| == 2 && |open| > 0 && NumPending(|open|) < 2 && Streams(h, chain, pending, open)
    ensures Streams(h, chain, pending[NumPending(|open|) := value], open + [value])
  {
    var np := NumPending(|open|);
    var cut := |open| - np;
    NumPendingStep(|open|);
    assert (open + [value])[..cut] == open[..cut];
    assert (open + [value])[cut..] == open[cut..] + [value] == pending[np := value][..np + 1];
  }

  /** Absorbing the buffer with one more value gives the fold over everything taken in. */
  lemma {:induction false} StreamAbsorb(h: Hash4, chain: Felt, pending: seq<Felt>, open: seq<Felt>, value: Felt)
    requires |pending| == 2 && |open| > 0 && Streams(h, chain, pending, open)
    ensures Absorb(h, chain, pending[..NumPending(|open|)] + [value]) == LeftFold(h, open + [value])
  {
    var np := NumPending(|open|);
    var cut := |open| - np;
    var head, group := open[..cut], pending[..np] + [value];
    assert head + group == open + [value];
    LeftFoldExtend(h, head, group);
  }

  lemma {:induction false} StreamWhole(h: Hash4, pending: seq<Felt>, open: seq<Felt>)
    requires |pending| == 2 && |open| > 0 && NumPending(|open|) == 0
    ensures Streams(h, LeftFold(h, open), pending, open)
  {
    assert open[..|open|] == open;
  }

  /** A batch of `zkpBatches` ZKP batches of `zkpBatchSize` values. It is a plain record in the tree
      account, so an update is a new record. */
  datatype Batch = Batch(
    zkpBatchSize: nat, zkpBatches: nat,
    numInserted: nat, state: BatchState, numFullZkpBatches: nat, numInsertedZkpBatches: nat, startIndex: nat,
    pendingValues: seq<Felt>, hashChains: seq<Felt>, cachedTreeUpdates: seq<CachedTreeUpdate>)

  /** The counters of a batch that has taken in the finalized ZKP batches `chunks` and, in the open
      one, the values `open`. */
  ghost predicate Counters(b: Batch, chunks: seq<seq<Felt>>, open: seq<Felt>) {
    && b.zkpBatchSize > 0 && b.zkpBatches > 0
    && |b.pendingValues| == 2 && |b.hashChains| == b.zkpBatches && |b.cachedTreeUpdates| == b.zkpBatches
    && b.numInsertedZkpBatches <= b.numFullZkpBatches <= b.zkpBatches
    && b.numInserted < b.zkpBatchSize
    && (b.numFullZkpBatches == b.zkpBatches ==> b.numInserted == 0)
    && |chunks| == b.numFullZkpBatches && |open| == b.numInserted
    && (forall i :: 0 <= i < |chunks| ==> |chunks[i]| == b.zkpBatchSize)
    && b.state == (if b.numInsertedZkpBatches == b.zkpBatches then Inserted
                   else if b.numFullZkpBatches == b.zkpBatches then Full else Fill)
  }

  /** Every finalized, unapplied chain commits its values in queue order, the open chain has absorbed
      all but the buffered values, and every other chain is zero, so a reused batch inherits nothing. */
  ghost predicate Chains(h: Hash4, b: Batch, chunks: seq<seq<Felt>>, open: seq<Felt>)
    requires Counters(b, chunks, open)
  {
    && (forall i :: b.numInsertedZkpBatches <= i < b.numFullZkpBatches ==> b.hashChains[i] == LeftFold(h, chunks[i]))
    && (b.numInserted > 0 ==> Streams(h, b.hashChains[b.numFullZkpBatches], b.pendingValues, open))
    && (forall i :: 0 <= i < b.numInsertedZkpBatches ==> b.hashChains[i] == 0)
    && (forall i :: b.numFullZkpBatches <= i < b.zkpBatches && (i > b.numFullZkpBatches || b.numInserted == 0)
          ==> b.hashChains[i] == 0)
  }

  /** A cached update belongs to a finalized chain that is not applied yet. */
  ghost predicate CacheInRange(b: Batch) {
    forall i :: 0 <= i < |b.cachedTreeUpdates| && b.cachedTreeUpdates[i].occupied ==>
      b.numInsertedZkpBatches <= i < b.numFullZkpBatches
  }

  ghost predicate Valid(h: Hash4, b: Batch, chunks: seq<seq<Felt>>, open: seq<Felt>) {
    Counters(b, chunks, open) && Chains(h, b, chunks, open) && CacheInRange(b)
  }

  /** A batch over zeroed account data. */
  function Init(zkpBatches: nat, zkpBatchSize: nat, startIndex: nat): (b: Batch)
    requires zkpBatches > 0 && zkpBatchSize > 0
    ensures forall h :: Valid(h, b, [], [])
  {
    Batch(zkpBatchSize, zkpBatches, 0, Fill, 0, 0, startIndex, [0, 0],
          seq(zkpBatches, _ => 0), seq(zkpBatches, _ => EMPTY_UPDATE))
  }

  /** `ensure_ready_to_fill`: an inserted batch is reused for the range two batches on. */
  method EnsureReadyToFill(
    ghost h: Hash4, b: Batch, batchSize: nat, ghost chunks: seq<seq<Felt>>, ghost open: seq<Felt>)
    returns (r: Result<Batch, BatchError>)
    requires Valid(h, b, chunks, open)
    ensures r.Ok? <==> b.state != Full
    ensures r.Err? ==> r.error == BatchNotReady
    ensures r.Ok? && b.state == Fill ==> r.value == b
    ensures r.Ok? && b.state == Inserted ==>
              && Valid(h, r.value, [], []) && r.value.state == Fill
              && r.value.startIndex == b.startIndex + 2 * batchSize
              && r.value.numInsertedZkpBatches == 0 && r.value.cachedTreeUpdates == b.cachedTreeUpdates
              && r.value.zkpBatches == b.zkpBatches && r.value.zkpBatchSize == b.zkpBatchSize
  {
    match b.state {
      case Fill => r := Ok(b);
      case Inserted =>
        var next := b.startIndex + batchSize * 2;
        r := Ok(b.(numInserted := 0, state := Fill, numFullZkpBatches := 0, numInsertedZkpBatches := 0,
                   startIndex := next));
      case Full => r := Err(BatchNotReady);
    }
  }

  /** The chain step of `add_to_hash_chain`: the value heads the chain, is absorbed with the buffer,
      or joins the buffer. */
  method ExtendOpenChain(h: Hash4, b: Batch, value: Felt, ghost chunks: seq<seq<Felt>>, ghost open: seq<Felt>)
    returns (hashChains: seq<Felt>, pendingValues: seq<Felt>)
    requires Valid(h, b, chunks, open) && b.state == Fill
    ensures |hashChains| == b.zkpBatches && |pendingValues| == 2
    ensures forall i :: 0 <= i < b.zkpBatches && i != b.numFullZkpBatches ==> hashChains[i] == b.hashChains[i]
    ensures if b.numInserted + 1 == b.zkpBatchSize
            then hashChains[b.numFullZkpBatches] == LeftFold(h, open + [value])
            else Streams(h, hashChains[b.numFullZkpBatches], pendingValues, open + [value])
  {
    hashChains, pendingValues := b.hashChains, b.pendingValues;
    var index := b.numFullZkpBatches;
    var numPending := NumPending(b.numInserted);
    if b.numInserted == 0 {
      hashChains := hashChains[index := value];
      assert open + [value] == [value];
      StreamWhole(h, pendingValues, [value]);
    } else if numPending == 2 || b.numInserted + 1 == b.zkpBatchSize {
      var group := pendingValues[..numPending] + [value];
      StreamAbsorb(h, hashChains[index], pendingValues, open, value);
      hashChains := hashChains[index := h(hashChains[index], Pad(group, 0), Pad(group, 1), Pad(group, 2))];
      if numPending == 2 {
        NumPendingStep(b.numInserted);
        StreamWhole(h, pendingValues, open + [value]);
      }
    } else {
      StreamBuffer(h, hashChains[index], pendingValues, open, value);
      pendingValues := pendingValues[numPending := value];
    }
  }

  /** `add_to_hash_chain`: the streamed chain stays the fold over the values in queue order. */
  method AddToHashChain(h: Hash4, b: Batch, value: Felt, ghost chunks: seq<seq<Felt>>, ghost open: seq<Felt>)
    returns (r: Result<Batch, BatchError>)
    requires Valid(h, b, chunks, open)
    ensures r.Ok? <==> b.state == Fill
    ensures r.Err? ==> r.error == BatchNotReady
    ensures r.Ok? ==>
              && (if |open| + 1 == b.zkpBatchSize
                  then Valid(h, r.value, chunks + [open + [value]], [])
                  else Valid(h, r.value, chunks, open + [value]))
              && r.value.startIndex == b.startIndex
              && r.value.numInsertedZkpBatches == b.numInsertedZkpBatches
              && r.value.cachedTreeUpdates == b.cachedTreeUpdates
              && r.value.zkpBatches == b.zkpBatches && r.value.zkpBatchSize == b.zkpBatchSize
  {
    if b.state != Fill {
      return Err(BatchNotReady);
    }
    var hashChains, pendingValues := ExtendOpenChain(h, b, value, chunks, open);
    var b' := b.(hashChains := hashChains, pendingValues := pendingValues, numInserted := b.numInserted + 1);
    if b'.numInserted == b.zkpBatchSize {
      b' := b'.(numFullZkpBatches := b'.numFullZkpBatches + 1, numInserted := 0);
      if b'.numFullZkpBatches == b.zkpBatches {
        b' := b'.(state := Full);
      }
    }
    r := Ok(b');
  }

  /** `cache_tree_update`; an empty update evicts the slot and keeps the hash chain. */
  function CacheTreeUpdate(b: Batch, index: nat, update: CachedTreeUpdate): Batch
    requires index < |b.cachedTreeUpdates|
  {
    b.(cachedTreeUpdates := b.cachedTreeUpdates[index := update])
  }

  /** `mark_as_inserted_in_merkle_tree`, then `clear_cached_tree_update` of the applied slot. */
  method MarkAsInserted(ghost h: Hash4, b: Batch, ghost chunks: seq<seq<Felt>>, ghost open: seq<Felt>)
    returns (r: Result<Batch, BatchError>)
    requires Valid(h, b, chunks, open)
    ensures r.Ok? <==> b.state != Inserted && b.numFullZkpBatches > b.numInsertedZkpBatches
    ensures r.Ok? ==>
              && Valid(h, r.value, chunks, open)
              && r.value.numInsertedZkpBatches == b.numInsertedZkpBatches + 1
              && r.value.cachedTreeUpdates == b.cachedTreeUpdates[b.numInsertedZkpBatches := EMPTY_UPDATE]
              && r.value.startIndex == b.startIndex
              && r.value.zkpBatches == b.zkpBatches && r.value.zkpBatchSize == b.zkpBatchSize
  {
    if b.state == Inserted {
      return Err(BatchAlreadyInserted);
    }
    if !(b.numFullZkpBatches > b.numInsertedZkpBatches) {
      return Err(BatchNotReady);
    }
    var index := b.numInsertedZkpBatches;
    var b' := b.(numInsertedZkpBatches := index + 1);
    if b'.numInsertedZkpBatches == b.zkpBatches {
      if b'.state != Full {
        return Err(BatchNotReady);
      }
      b' := b'.(state := Inserted);
    }
    b' := CacheTreeUpdate(b', index, EMPTY_UPDATE);
    r := Ok(b'.(hashChains := b'.hashChains[index := 0]));
  }
}
