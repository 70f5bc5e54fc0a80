# Zolana shielded pool: verified models

Dafny models of the hard core of the Zolana repository: the two trees of a shielded-pool tree account and
the protocol around them, the hash chains that public inputs are folded into, and a few protocols and
codecs beside them. Check everything with `dafny verify dfyconfig.toml`.

## What is modelled

**The nullifier protocol.** A spend queues nullifiers and opens one PDA (a program account that marks the
nullifier as used) per nullifier; batch updates append queued nullifiers to the nullifier tree under a proof;
PDAs below a watermark may be closed again.

- `NullifierQueue` is the queue as an ordered list of values, cut into ZKP batches, of which a prefix is applied.
- `NullifierBatch`, `NullifierTree` and `NullifierUpdate` are the code: two batch slots with streamed hash chains,
  counters, cached proofs, the cascade and the root ring. `Represents` says which queue an account stands for, and
  every operation is proved to represent the queue operation.
- `NullifierLedger` is the protocol across instructions. Its main result, `NoDoubleSpend`, says that no run ever
  queues a nullifier twice, although PDAs are closed and old roots stay usable: a PDA may be closed only once
  every root that can still be looked up contains its nullifier (`SafePdaLifetime`).
- `NullifierPool` is the account that the instructions change in place, with its fee balance and PDA counter, tied to the
  ledger.
- `Fees` is the fee balance and its reserve: conservation, and exactly when a drain is paid in full. `LedgerFees` relates
  them to the ledger and the account.
- `SpendReserve` is the dummy-input gate: no run of gated transactions leaves an unspent output without a
  nullifier slot.

**The state tree.** `MerkleTree` is the reference, the Merkle tree over the leaves padded with zeros.
`UtxoHistory` is the meaning of a run: the leaves in order and one history entry per slot. `UtxoTree` is the
append-only tree with its arrays. After any run its whole state is `StateOf(run)`, which gives the root, every
left sibling, the ring of roots, the number of hash calls, and that batches and single appends agree.

**Hash chains.** `HashChain` and `ZeroSuffix` are the 4-ary folds and the zero-suffix shortcut, `TreeSlots` the
binary chain over tree slots, `InputFlags` the packed flags element (over `Bits`), `CacheRead` the selection of
cached inputs.

**Beside them.** `SeedRelease` is the release of a sealed seed under any interleaving and crash. `FeatureMarker` is
the encoder of feature markers and `FeatureScan` their scanner. `OutputCodec` is the output payload codec. `TeePin` is the extension of
pinned prover measurements.

Conventions: a 32-byte value is an integer `Felt`, and `[0u8; 32]` is 0. Poseidon is any total function, so every
result holds for all of them; the few results that need collision freedom take it as a hypothesis (`Injective2`,
`Injective4`), and so does soundness of the proof system (`Sound`, `Excludes`). `Result`, `Arithmetic`, `Collections`,
`Bits`, `Field`, `ByteSeq` and `UnicodeText` hold shared definitions.

## Where the code and its comments disagree

The comment on the right 4-ary fold (program-libs/hasher/src/hash_chain.rs:134-137) says that `[a, b]` and
`[0, a, b]` fold to the same value. The code aligns the leftmost group to the left, so the second folds to
`P(0, a, 0, b)`; the lists that do fold alike are `[a, b]` and `[a, 0, b]`. `HashChain.FoldsAliasAcrossLengths`
states both.

The comment on `fee_balance_reserve` says the reserve is what the open PDAs may still draw. Its sums saturate, so over all
u64 balances this fails, and `Fees.ReserveSufficesIff` gives the exact condition. No account reaches the failing case: its
balance stays below the largest u64 (`NullifierPool.Pool.FeeFits`), and there the reserve is enough
(`NullifierPool.Pool.ReservedIsSolvent`).

## Overlapping seed releases

A finished seed release can be undone by a run that overlaps it. The stale run must have passed its grants check before the
key was bound, since the bound policy denies that call; it then removes the seed it finds
(`SeedRelease.FinishedReleaseCanBeLost`). `SeedRelease.ReleaseStaysIffNoneStale` gives the exact condition under which a
finished release stays.

## Model

| member | source | states |
|---|---|---|
| `HashChain.CreateHashChain4` | program-libs/hasher/src/hash_chain.rs:98-111 | the loop computes the left fold in groups of three, with ceil((n - 1) / 3) hash calls |
| `HashChain.LeftFoldGroups` | program-libs/hasher/src/hash_chain.rs:98-111 | what each group of the left fold hashes over the hash alone: the chain, then the three elements in order, zeros in a short last group |
| `HashChain.LeftFoldOfFew` | program-libs/hasher/src/hash_chain.rs:75-79 | the left fold of up to four elements, written out |
| `HashChain.CreateRightHashChain4FromSeed` | program-libs/hasher/src/hash_chain.rs:155-172 | walking from the right computes the right fold into the seed, with one call per started group of three |
| `HashChain.CreateRightHashChain4FromSlice` | program-libs/hasher/src/hash_chain.rs:140-148 | the fold of a whole list, zero for the empty one, with ceil((n - 1) / 3) calls |
| `HashChain.RightChainGroups` | program-libs/hasher/src/hash_chain.rs:116-125 | what each group of the right fold hashes: the three elements in order, then the chain, with the short group leftmost and left-aligned |
| `HashChain.RightChainOfFew` | program-libs/hasher/src/hash_chain.rs:116-125 | the right fold of up to five elements, written out as the comment does |
| `HashChain.RightFoldConcat` | program-libs/hasher/src/hash_chain.rs:155-172 | fold(a ++ b, s) = fold(a, fold(b, s)) whenever the length of b is a multiple of 3 |
| `HashChain.LeftFoldInjective` | program-libs/hasher/src/hash_chain.rs:83-89 | under an injective hash the left fold is injective on lists of one length |
| `HashChain.RightFoldInjective` | program-libs/hasher/src/hash_chain.rs:134-139 | under an injective hash the right fold determines prefix and seed for one length |
| `HashChain.FoldsAliasAcrossLengths` | program-libs/hasher/src/hash_chain.rs:86-89 | lists of different lengths that fold alike, and the documented right-fold pair that does not |
| `HashChain.NonzeroChainRestarts` | program-libs/hasher/src/hash_chain.rs:46-57 | for every hash and list, the fold is the chain of the nonzero elements from its last restart on |
| `HashChain.RestartIffZeroPrefix` | program-libs/hasher/src/hash_chain.rs:50-55 | it restarts exactly when some proper prefix of the nonzero elements folds to zero |
| `HashChain.NonzeroChainIsChain` | program-libs/hasher/src/hash_chain.rs:46-57 | without such a prefix it is the chain of the nonzero elements wherever the zeros are |
| `HashChain.NonzeroChainIsChainIff` | program-libs/hasher/src/hash_chain.rs:46-57 | with a collision-free hash, exactly then, or when the element it restarts at is a fixed point of the hash with what came before |
| `HashChain.NonzeroChainSkipsZeros` | program-libs/hasher/src/hash_chain.rs:46-57 | in particular for a hash that is never zero |
| `HashChain.ZeroHashRestarts` | program-libs/hasher/src/hash_chain.rs:50-55 | the shortest restart: a first hash that comes out zero is forgotten |
| `HashChain.NonzeroChainOfFew` | program-libs/hasher/src/hash_chain.rs:46-57 | the nonzero fold of up to three elements, written out |
| `ZeroSuffix.TableIsFoldOverZeros` | program-libs/hasher/src/zero_suffix_hash_chain.rs:9-19 | the table, given by its recurrence, holds the right fold over every all-zero prefix, a short leftmost group included |
| `ZeroSuffix.CreateZeroSuffixRightHashChain4` | program-libs/hasher/src/zero_suffix_hash_chain.rs:147-170 | the shortcut returns the full right fold, fails exactly for the one family past the table and never up to width 54, and its calls depend on the nonzero part |
| `ZeroSuffix.CreatePaddedRightHashChain4` | program-libs/hasher/src/zero_suffix_hash_chain.rs:122-141 | the padded form is the fold over the sent values and zeros, succeeds exactly when they fit a width of at most 54, with at most ceil((k + 2) / 3) calls |
| `TreeSlots.CreateRightHashChain` | program-libs/hasher/src/hash_chain.rs:35-44 | walking from the right computes the binary right fold |
| `TreeSlots.TreeSlotsHashChain` | program-libs/interface/src/tree_slot.rs:151-157 | the chain over the hashes of all slots |
| `TreeSlots.ZeroSlotsIsChain` | program-libs/interface/src/tree_slot.rs:159-162 | the suffix table, given by its recurrence, is the chain over that many unused slots |
| `TreeSlots.SlotsChain` | program-libs/interface/src/tree_slot.rs:50-53 | a slot hashes its id, state root and nullifier root in this order, and joins the chain on the left |
| `TreeSlots.PopulatedTreeSlotsHashChain` | program-libs/interface/src/tree_slot.rs:189-211 | for any slot count, hashing only the populated slots gives the chain over all of them; it fails exactly for no slots or too many |
| `InputFlags.OrInputFlagsBits` | program-libs/interface/src/tree_slot.rs:125-147 | the big-endian value becomes value-or-shifted-bits, refused exactly when a bit falls off the end |
| `InputFlags.PackInputFlags` | program-libs/interface/src/tree_slot.rs:105-121 | succeeds exactly for at most 49 indexes all below 5, the 32 bytes then read as allow + sum of index[i] * 2^(1 + 3i), and the first bad input decides the error |
| `InputFlags.PackStep` | program-libs/interface/src/tree_slot.rs:111-119 | each OR lands above all bits before it, so it is an addition and the inner errors cannot happen |
| `InputFlags.UnpackInvertsPack` | program-libs/interface/src/tree_slot.rs:93-104 | bit 0 and the three-bit fields read back give exactly the policy and the indexes |
| `InputFlags.PackedAt` | program-libs/interface/src/tree_slot.rs:76-80 | bit 0 is the policy, and input i's index is the three bits from bit 1 + 3i |
| `InputFlags.BitOfElement` | program-libs/interface/src/tree_slot.rs:98-99 | bit b of the element is bit b % 8 of byte 31 - b / 8 |
| `InputFlags.PackedIsCanonical` | program-libs/interface/src/tree_slot.rs:84-86 | the element is below 2^148 and a canonical BN254 scalar |
| `CacheRead.EmptyCachedInputFields` | program-libs/interface/src/state/cache.rs:119-125 | the table entry is the fold over that many zeros, available up to 55 inputs, with the error past them |
| `CacheRead.CachedInputFields` | program-libs/interface/src/state/cache.rs:88-110 | the published chain is the fold over the selected hashes padded to the input count, with the exact error condition |
| `CacheRead.SelectedAtRank` | program-tests/test-utils/src/transact.rs:769-774 | a set slot's hash sits at the popcount of the lower bits in the compacted list |
| `CacheRead.CacheReadSelection` | program-tests/test-utils/src/transact.rs:756-795 | every cached read finds its slot's hash at its index, padding cuts nothing off, the rest is zero, the published chain folds exactly that list, and the exact error conditions |
| `CacheRead.OwnHash` | program-tests/test-utils/src/transact.rs:762-767 | the last read of a slot finds its own hash |
| `CacheRead.LastReadWins` | program-tests/test-utils/src/transact.rs:762-767 | an earlier read of the slot does exactly when its hash is the last one's |
| `NullifierBatch.EnsureReadyToFill` | program-libs/tree/src/nullifier_tree/batch.rs:210-242 | only a full batch is refused, and an inserted one is reused empty two batch ranges on |
| `NullifierBatch.ExtendOpenChain` | program-libs/tree/src/nullifier_tree/batch.rs:327-366 | the streamed chain and buffer stay the fold over the open values, and are the complete fold at the last one |
| `NullifierBatch.AddToHashChain` | program-libs/tree/src/nullifier_tree/batch.rs:327-377 | the batch represents one more value, closing its ZKP batch and itself on time |
| `NullifierBatch.MarkAsInserted` | program-libs/tree/src/nullifier_tree/batch.rs:385-400 | succeeds exactly while a complete ZKP batch is not applied, and keeps the batch valid |
| `NullifierQueue.PushKeepsWellFormed` | program-libs/tree/src/nullifier_tree/queue_insert.rs:22-46 | a queued value takes the next leaf index and the queue stays well formed |
| `NullifierQueue.ApplyKeepsWellFormed` | program-libs/tree/src/nullifier_tree/merkle_tree_update.rs:147-224 | an applied ZKP batch keeps the values and moves the tree index by one ZKP batch, never past the queue |
| `NullifierQueue.FlattenIsPrefix` | program-libs/tree/src/nullifier_tree/queue_insert.rs:6-9 | the values of the first ZKP batches are the first queued values, at the leaf indices they reserved |
| `NullifierQueue.ApplyRoot` | program-libs/tree/src/nullifier_tree/merkle_tree_update.rs:249-260 | pushing the new root into the ring keeps every ring entry the commitment of its prefix |
| `NullifierQueue.AcceptedRoot` | program-libs/tree/src/nullifier_tree/access.rs:52-58 | a root that can be looked up commits to one of the recent prefixes of the queue |
| `NullifierQueue.RootsContainClosable` | program-libs/tree/src/nullifier_tree/merkle_tree_update.rs:234-247 | every such prefix contains every value below the close watermark |
| `NullifierQueue.ClosableIff` | program-libs/tree/src/nullifier_tree/merkle_tree_update.rs:234-247 | a leaf is below the close watermark exactly once the queue batch after its own is fully applied |
| `NullifierQueue.CanPushIff` | program-libs/tree/src/nullifier_tree/batch.rs:223-242 | a value can be queued exactly while a leaf is left and fewer than two queue batches wait to be applied |
| `NullifierQueue.RootSlotIsModulo` | program-libs/tree/src/nullifier_tree/merkle_tree_update.rs:249-260 | the ring keeps the root of each recent prefix at its length modulo the ring's |
| `NullifierTree.Init` | program-libs/tree/src/nullifier_tree/init.rs:106-167 | refuses exactly the batch sizes, capacities and heights the source refuses; otherwise the fresh account represents the empty queue, with the empty tree's root |
| `NullifierTree.InsertNullifierIntoQueue` | program-libs/tree/src/nullifier_tree/queue_insert.rs:22-46 | succeeds exactly for a canonical scalar with room, returns the leaf index, and represents the queue with the value appended |
| `NullifierTree.VerifiedAppends` | program-libs/tree/src/nullifier_tree/merkle_tree_update.rs:64-128 | a verified update whose old root commits to a prefix has a new root that commits to the next longer one |
| `NullifierUpdate.VerifyProofCacheUpdate` | program-libs/tree/src/nullifier_tree/merkle_tree_update.rs:64-128 | caches exactly the updates whose proof holds for their complete ZKP batch, and answers replays with no change |
| `NullifierUpdate.ProofHoldsIff` | program-libs/tree/src/nullifier_tree/merkle_tree_update.rs:64-128 | a proof is accepted exactly when it holds for both roots, the fold of the ZKP batch's values in queue order and its first leaf |
| `NullifierUpdate.ReplayedIff` | program-libs/tree/src/nullifier_tree/merkle_tree_update.rs:64-128 | a replay is for a ZKP batch of the pending queue batch that is already in the tree |
| `NullifierUpdate.ApplyNext` | program-libs/tree/src/nullifier_tree/merkle_tree_update.rs:161-205 | one round moves the account, its watermark included, from representing the queue to representing it with one more ZKP batch applied |
| `NullifierUpdate.ApplyCachedTreeUpdates` | program-libs/tree/src/nullifier_tree/merkle_tree_update.rs:147-224 | exactly the longest chain of cached updates is applied in order, the event describes it, a mismatching next update is evicted, and the root ring stays right |
| `NullifierUpdate.UpdateTreeFromQueue` | program-libs/tree/src/nullifier_tree/merkle_tree_update.rs:32-48 | the exact success condition, that a replay changes nothing, and how many updates a new proof unblocks |
| `NullifierLedger.SafePdaLifetime` | programs/shielded-pool/src/instructions/close_nullifier_pdas.rs:13-45 | a queued value without a PDA is under every root that can still be looked up |
| `NullifierLedger.SpendIsNew` | programs/shielded-pool/src/instructions/transact/tree.rs:68-126 | a nullifier with no PDA and a non-inclusion proof against a usable root was never queued |
| `NullifierLedger.StepKeepsInvariant` | programs/shielded-pool/src/instructions/batch_update_nullifier_tree.rs:17-61 | spends, updates and closes keep the ledger invariant |
| `NullifierLedger.CloseEnabledIff` | programs/shielded-pool/src/instructions/nullifier_pda/close.rs:13-29 | in every reachable ledger exactly the open PDAs whose next queue batch is fully applied may be closed: the watermark neither runs ahead nor lags |
| `NullifierLedger.RunKeepsInvariant` | programs/shielded-pool/src/instructions/transact/tree.rs:43-138 | every state of every run satisfies it |
| `NullifierLedger.NoDoubleSpend` | programs/shielded-pool/src/instructions/transact/tree.rs:95-126 | in every state of every run no nullifier was queued twice |
| `NullifierPool.Pool.Create` | program-libs/tree/src/lib.rs:189-236 | accepts exactly the supported nullifier parameters and fee schedules, and then the account is a valid initial ledger |
| `NullifierPool.RemoveClosable` | programs/shielded-pool/src/instructions/close_nullifier_pdas.rs:40-43 | the closes succeed exactly for distinct open PDAs below the watermark, and remove exactly them |
| `NullifierPool.CreatePdas` | programs/shielded-pool/src/instructions/nullifier_pda/create.rs:70-104 | the PDAs of a spend are those of the ledger step, and a used one means the step is not possible |
| `NullifierPool.PdasFit` | program-libs/tree/src/fees.rs:89-93 | there are fewer open PDAs than the tree has leaves, so their saturating count is exact |
| `NullifierPool.Pool.Spend` | programs/shielded-pool/src/instructions/transact/tree.rs:81-126 | succeeds exactly for a nonempty list whose proof verifies and whose ledger step is enabled; performs that step, credits the fee, which cannot overflow, counts the PDAs and returns the first queue index; otherwise changes nothing |
| `NullifierPool.Pool.AppendOutputs` | programs/shielded-pool/src/instructions/transact/tree.rs:159-191 | a tree is credited once for nonempty outputs, and not when it is an input tree too; succeeds exactly when the slot is accepted and the leaves fit, and keeps a solvent account solvent |
| `NullifierPool.Pool.FeeFits` | program-libs/tree/src/fees.rs:6-10 | in every account the balance stays a whole fee below the largest u64, since a capped credit pays for a leaf of one of the trees |
| `NullifierPool.Pool.ReleaseFeeSurplus` | programs/shielded-pool/src/instructions/claim_tree_lamports.rs:43-61 | a positive release leaves a solvent account: exactly a close for each open PDA and an append for the most ZKP batches they can touch, an unfinished one included |
| `NullifierPool.Pool.SetTreeFees` | programs/shielded-pool/src/instructions/set_tree_fees.rs:15-32 | accepts exactly the schedules within the cap, and every bound on the account survives the change |
| `NullifierPool.Pool.ReservedIsSolvent` | program-libs/tree/src/fees.rs:61-117 | an account that holds the reserve of its own PDA counter is solvent |
| `NullifierPool.Pool.BatchUpdate` | programs/shielded-pool/src/instructions/batch_update_nullifier_tree.rs:17-61 | succeeds exactly on an acceptable proof, performs the ledger update that the event describes and pays for it; a solvent account pays in full and stays solvent; otherwise nothing changes |
| `NullifierPool.Pool.ClosePdas` | programs/shielded-pool/src/instructions/close_nullifier_pdas.rs:13-45 | succeeds exactly for a nonempty list of distinct open PDAs whose next queue batch is fully applied, removes and counts exactly them and pays for it; a solvent account pays in full and stays solvent; otherwise nothing changes |
| `SpendReserve.RunReserves` | program-libs/tree/src/lib.rs:336-346 | in every gated run the remaining nullifier capacity plus the outputs spent is at least 2^HEIGHT |
| `SpendReserve.OutputsStaySpendable` | programs/shielded-pool/src/instructions/transact/tree.rs:82-90 | so any set of unspent outputs fits the remaining capacity, and once the queued batches are applied the next one can be queued |
| `SpendReserve.AppliedQueueFills` | program-libs/tree/src/nullifier_tree/queue_insert.rs:48-62 | with every complete ZKP batch applied, only the capacity limits the queue |
| `SpendReserve.HeadroomIff` | program-libs/tree/src/lib.rs:336-346 | inputs are within the headroom exactly when the state tree's whole capacity stays free after them |
| `Fees.ReserveIsCappedObligation` | program-libs/tree/src/fees.rs:61-73 | the saturating reserve is the exact obligation cut off at the largest u64 |
| `Fees.AppendsIff` | program-libs/tree/src/fees.rs:67-70 | the appends reserved for are the fewest that take in every open PDA, and as many as they can touch |
| `Fees.ObligationPays` | program-libs/tree/src/fees.rs:61-63 | the obligation is the smallest balance that pays a close each and an append for every ZKP batch the open PDAs can touch |
| `Fees.FeeAccount.SetFeeSchedule` | program-libs/tree/src/fees.rs:43-47 | accepts exactly the schedules within the cap |
| `Fees.FeeAccount.CreditTreeFee` | program-libs/tree/src/fees.rs:49-59 | credits the capped fee and keeps credited = balance + paid + released, or overflows and changes nothing |
| `Fees.FeeAccount.ReleaseFeeSurplus` | program-libs/tree/src/fees.rs:75-83 | a positive release leaves exactly what pays a close for each open PDA and an append for the most ZKP batches they can touch, and conservation holds |
| `Fees.FeeAccount.RecordNullifierPdasCreated` | program-libs/tree/src/fees.rs:89-93 | the count of open PDAs grows by the queued ones, up to the largest u64 |
| `Fees.FeeAccount.RecordNullifierPdasClosed` | program-libs/tree/src/fees.rs:95-99 | the count falls by the closed ones and never below zero |
| `Fees.FeeAccount.TakeAppendReimbursement` | program-libs/tree/src/fees.rs:101-117 | pays the rate per update, at most the balance, and keeps conservation |
| `Fees.FeeAccount.TakeCloseReimbursement` | program-libs/tree/src/fees.rs:106-117 | pays the rate per closed PDA, at most the balance, and keeps conservation |
| `Fees.SolventDrainsInFull` | program-libs/tree/src/fees.rs:101-117 | a balance that covers the demand pays every run of appends and closes in full |
| `Fees.PaidInFullIffSolvent` | program-libs/tree/src/fees.rs:101-117 | and only such a balance does |
| `Fees.ObligationCoversDemand` | program-libs/tree/src/fees.rs:61-73 | the obligation covers the demand of every drain over ZKP batches that the open PDAs can touch, an unfinished one included |
| `Fees.SaturatedReserveFallsShort` | program-libs/tree/src/fees.rs:71-73 | as arithmetic, a schedule under which the largest u64 as balance meets a saturated reserve and does not pay in full |
| `Fees.ReserveSufficesIff` | program-libs/tree/src/fees.rs:61-83 | over all u64 balances, one at the saturating reserve pays every later drain in full exactly when the obligation is at most the largest u64 |
| `LedgerFees.UnappliedHavePdas` | program-libs/tree/src/fees.rs:61-63 | in every ledger state the queued values that are not in the tree are no more than the open PDAs |
| `LedgerFees.ReachableDrainIsPaid` | program-libs/tree/src/fees.rs:61-117 | so in every run a balance at the obligation of the open PDAs pays every later drain in full |
| `LedgerFees.ObligationCovers` | program-libs/tree/src/fees.rs:61-63 | the obligation of the open PDAs covers everything that can still be drawn |
| `LedgerFees.ReserveCovers` | program-libs/tree/src/fees.rs:61-83 | and so does the saturating reserve, for every balance below the largest u64 |
| `MerkleTree.RootSplits` | program-libs/tree/src/smt.rs:115-129 | the reference root is the hash of the root over the first half of the leaves with that over the rest, zeros past the end |
| `MerkleTree.LeftChildStep` | program-libs/tree/src/smt.rs:116-122 | a left child on the last leaf's path is hashed with the root of an empty subtree |
| `MerkleTree.RightChildStep` | program-libs/tree/src/smt.rs:123-127 | a right child is hashed with a sibling that was complete before the append |
| `MerkleTree.CarryStops` | program-libs/tree/src/smt.rs:115-129 | stopping at the first left child clears as many bits as it hashes and sets one |
| `MerkleTree.SiblingAfterCarry` | program-libs/tree/src/smt.rs:117-120 | the siblings above the stop, which later appends read, are unchanged |
| `UtxoHistory.LogIsFinalPerSlot` | program-libs/tree/src/smt.rs:186-204 | the history has exactly one entry per slot with updates, in slot order, covering everything appended by the end of that slot |
| `UtxoHistory.BatchIsOneByOne` | program-libs/tree/src/smt.rs:80-92 | a batch and its leaves one by one in the same slot leave the same leaves and history, the first update included |
| `UtxoTree.UtxoTree.Init` | program-libs/tree/src/smt.rs:49-74 | refused exactly for another height or one past the zero-hash table, leaving the account as it was; otherwise the state of the empty run, whatever the history held |
| `UtxoTree.UtxoTree.AppendLeaf` | program-libs/tree/src/smt.rs:107-138 | the walk keeps every left sibling that later appends read; for the last leaf it gives the Merkle root and every left sibling; the exact number of hash calls |
| `UtxoTree.UtxoTree.PushRoot` | program-libs/tree/src/smt.rs:186-204 | the ring holds the history with the new entry |
| `UtxoTree.UtxoTree.AppendBatch` | program-libs/tree/src/smt.rs:93-140 | both error conditions exactly with what they leave, and on success the state of the run with the batch: Merkle root, siblings, ring; (m - 1) + popcount(n) - popcount(n + m - 1) + HEIGHT hash calls |
| `UtxoTree.UtxoTree.RootByIndex` | program-libs/tree/src/smt.rs:151-172 | returns exactly the root of the newest history entry at that place, never a byte left from before init |
| `UtxoTree.RingAppends` | program-libs/tree/src/smt.rs:195-203 | a new entry takes the place after the cursor and evicts only what was there |
| `UtxoTree.RingReplaces` | program-libs/tree/src/smt.rs:187-194 | a further update in the same slot overwrites only the cursor's place |
| `UtxoTree.BatchLeavesWhatSinglesLeave` | program-libs/tree/src/smt.rs:82-140 | a batch and its leaves one by one leave identical states, every sibling, cursor, length and slot included |
| `UtxoTree.CursorHoldsRoot` | program-libs/tree/src/smt.rs:146-149 | the cursor's entry is the current root |
| `UtxoTree.RecentEntryServed` | program-libs/tree/src/smt.rs:151-172 | each of the newest 500 entries is in the ring at its own place |
| `UtxoTree.ServedRootEndsASlot` | program-libs/tree/src/smt.rs:151-172 | every root in the ring is the empty tree's or the root at the end of a slot with updates |
| `UtxoTree.ReachableLayoutAccepted` | program-libs/tree/src/lib.rs:390-401 | the state-tree half of `check_layout` accepts every state that init and appends reach |
| `SeedRelease.BoundObjects` | tools/nitro/aws_nitro.py:267-312 | under every interleaving and crash, once the key is bound under a context every object in the bucket is under it, whatever was there before |
| `SeedRelease.BindIsForever` | tools/nitro/aws_nitro.py:117-152 | a bound policy never changes |
| `SeedRelease.ReleaseStaysIffNoneStale` | tools/nitro/aws_nitro.py:267-312 | a finished release survives every later interleaving exactly when no stale run is left |
| `SeedRelease.FinishedReleaseCanBeLost` | tools/nitro/aws_nitro.py:280-288 | a reachable overlap: a run that passed its grants check on the unbound key removes the seed of a release that finished meanwhile, and the key stays bound |
| `SeedRelease.InterleavedIsResumable` | tools/nitro/aws_nitro.py:267-312 | after any interleaving and crashes, a run for the bound request, or for any while the key is unbound, leaves both objects under its context |
| `SeedRelease.Deployment.ReleaseSeed` | tools/nitro/aws_nitro.py:267-312 | an uninterrupted run succeeds exactly for the bound request or an unbound key without grants, keeps a bound policy and a seed under it, puts back what is missing, and otherwise changes nothing |
| `SeedRelease.ReleaseIsIdempotent` | tools/nitro/aws_nitro.py:272-279 | a completed release is idempotent and refuses any other request |
| `SeedRelease.CrashIsResumable` | tools/nitro/aws_nitro.py:267-312 | so however many runs for one request overlapped and wherever they stopped, the next one completes |
| `SeedRelease.AloneIsAfterRelease` | tools/nitro/aws_nitro.py:267-312 | eight atomic steps alone give the result of the uninterrupted run |
| `FeatureMarker.EncodedLength` | program-libs/feature-gate/src/lib.rs:38-47 | the announced length is the length of the encoding |
| `FeatureMarker.EncodedBytes` | program-libs/feature-gate/src/lib.rs:56-81 | a marker byte for byte: its delimiters, labels, name and flag in order |
| `FeatureMarker.KeyBytes` | program-libs/feature-gate/src/lib.rs:67-80 | each key in it: the label, the digits and their terminators |
| `FeatureMarker.HexOfAt` | program-libs/feature-gate/src/lib.rs:70-77 | two lower-case digits per byte, the high one first |
| `FeatureMarker.Write` | program-libs/feature-gate/src/lib.rs:94-107 | appends the bytes at the offset, and panics exactly when they do not fit |
| `FeatureMarker.Encode` | program-libs/feature-gate/src/lib.rs:50-83 | its exact panics, and that it fills the buffer with the encoding to the last byte |
| `FeatureScan.FindFeatures` | program-libs/feature-gate/src/parse.rs:35-107 | the loops compute the scan, errors with their offsets included |
| `FeatureScan.BodyRoundTrip` | program-libs/feature-gate/src/parse.rs:48-103 | the body of a valid feature parses back to it |
| `FeatureScan.FindsBegin` | program-libs/feature-gate/src/parse.rs:109-113 | filler without the begin marker never makes one start early |
| `FeatureScan.ScanInvertsLayout` | program-libs/feature-gate/src/parse.rs:35-107 | with any filler free of the begin marker around them, the scan finds exactly the encoded features in order |
| `FeatureScan.ScanFindsMarkers` | program-libs/feature-gate/src/parse.rs:35-107 | the same for every feature whose name is a nonempty word over lower-case letters, digits and the hyphen, with distinct 32-byte keys |
| `FeatureScan.ValidNameIff` | program-libs/feature-gate/src/parse.rs:54-60 | exactly those names are accepted |
| `FeatureScan.RefusedBodies` | program-libs/feature-gate/src/parse.rs:48-98 | the reason for which each ill-formed body is refused, in terms of its fields |
| `FeatureScan.BadMarkerOffset` | program-libs/feature-gate/src/parse.rs:38-48 | a marker that cannot be read is reported at the offset where it begins, after any number of good ones |
| `FeatureScan.HexValueIff` | program-libs/feature-gate/src/parse.rs:82-87 | the digits of a key text, in either case |
| `FeatureScan.PairValueIs` | program-libs/feature-gate/src/parse.rs:82-87 | two digits read as a byte, the high one first, and a plus before a digit as nothing |
| `UnicodeText.Utf8Iff` | program-libs/feature-gate/src/parse.rs:48-48 | the bodies accepted as text are exactly the UTF-8 encodings of lists of Unicode scalar values |
| `FeatureScan.ScanReturnsValid` | program-libs/feature-gate/src/parse.rs:50-103 | whatever the input, a successful scan returns valid features with distinct names and nonempty distinct keys |
| `FeatureScan.HashTextIff` | program-libs/feature-gate/src/parse.rs:78-87 | a text that reads as a key is the encoder's text of it exactly when it is lower-case hex |
| `FeatureScan.MarkerTextIsNotUnique` | program-libs/feature-gate/src/parse.rs:85-86 | for every feature whose first key starts with a zero digit, a second body, with a plus for that digit, parses as the same feature |
| `FeatureScan.BodyIsEncodingIff` | program-libs/feature-gate/src/parse.rs:48-103 | a body that parses as a feature is its encoding exactly when all its key texts are lower-case hex |
| `OutputCodec.EncodeTaggedBody` | program-libs/event/src/proofless.rs:183-203 | patching the length in gives exactly the Borsh bytes of the tagged enum, and panics exactly past u32 |
| `OutputCodec.EncryptedBodyIffTagged` | program-libs/event/src/proofless.rs:127-136 | a payload is returned exactly for the encoding of scheme and payload |
| `OutputCodec.BodyRoundTrip` | program-libs/event/src/proofless.rs:5-19 | for every schema, a record parses from a body exactly when the body is its encoding |
| `OutputCodec.RecordsRoundTrip` | program-libs/event/src/proofless.rs:61-72 | in particular for both output records |
| `OutputCodec.FieldsDetermineRecord` | program-libs/event/src/proofless.rs:26-38 | the fields of a record determine it |
| `OutputCodec.EncodeOutputData` | program-libs/event/src/proofless.rs:155-165 | the plaintext encoding with every field at its offset and in its order, within 224 bytes plus the variable ones |
| `OutputCodec.OptionBytes` | program-libs/event/src/proofless.rs:11-18 | options are a zero byte or a one byte and the value, vectors are preceded by their length |
| `OutputCodec.TaggedHead` | program-libs/event/src/proofless.rs:180-203 | the envelope is the tag, the length of scheme and body in four bytes, and the scheme |
| `ByteSeq.LittleEndianOfFour` | program-libs/event/src/proofless.rs:194-201 | the length is written low byte first |
| `OutputCodec.EncodeRingDeposit` | program-libs/event/src/proofless.rs:222-231 | the ring deposit encoding with every field at its offset and in its order, within 228 bytes plus the ciphertext, whose payload is found again |
| `OutputCodec.SplitInvertsMerge` | program-libs/event/src/merge_output.rs:37-65 | merge output bodies split back into ring data hash and salt with ciphertext, and the envelope tells the two kinds apart |
| `OutputCodec.MergeOutputBytes` | program-libs/event/src/merge_output.rs:37-51 | a merge output byte for byte, its tag telling a ring merge from a plain one |
| `OutputCodec.SplitMergeIff` | program-libs/event/src/merge_output.rs:56-65 | a body splits exactly by its two lengths, and the parts make it up |
| `TeePin.Extend` | xtask/src/tee_policy.rs:118-190 | the checks and pushes on the cloned pins pin the attested prover and nothing else new, and keep the deployment, its lists and their lack of repeats |
| `TeePin.ExtendedPins` | xtask/src/tee_policy.rs:118-201 | an extension pins exactly what the prover attests in addition to what was pinned, and a Nitro measurement only if it equals the supplied build |
| `TeePin.DstackPinnedIff` | xtask/src/tee_policy.rs:134-168 | exactly when a dstack prover can be pinned |
| `TeePin.NitroPinnedIff` | xtask/src/tee_policy.rs:170-201 | exactly when a Nitro prover can be pinned, and which key is pinned then |
| `TeePin.PolicyFile.Run` | xtask/src/tee_policy.rs:68-116 | on success the attested prover is pinned and, without replace, the old pins are extended without repeats and a required GPU kept; a failure leaves the file as it was |
| `TeePin.PinsOnlyGrow` | xtask/src/tee_policy.rs:80-103 | over any run without replace the deployment stays the same, lists only grow without repeats, and a required GPU stays required |
| `TeePin.MeasurementsWereBuilt` | xtask/src/tee_policy.rs:170-201 | every Nitro measurement in the file was there at the start or equals a supplied build measurement |
| `TeePin.OnlyReplaceChangesDeployment` | xtask/src/tee_policy.rs:128-158 | a successful update that changes the deployment or loses a pin used replace |

## Left out

- Poseidon, SHA-256, Groth16 and the circuits: hashes are arbitrary functions, and soundness of the two proof systems is a hypothesis. A hash call that fails, which the source passes on as an error, is not modelled.
- Zero-copy casts, account views, borrow guards, PDA derivation, rent and lamport transfers: a PDA is an entry in a map, and an instruction that fails leaves the state as it was, as the runtime guarantees.
- Update in place in the nullifier tree: `Batch` and `Layout` are values that the methods take and return, since the source's struct is never aliased. `NullifierPool.Pool` holds them and is changed in place.
- Raw batch-state bytes outside the three states, and `validate` of the nullifier layout: only states that the operations reach are represented.
- Overflow of the u64 counters of the nullifier tree: they stay below the capacity, which is a u64.
- The state tree inside the pool account: `NullifierPool.Pool` holds its leaf count, and whether it accepts a slot is a parameter; `UtxoTree` models the rest.
- The loop over several input trees in one transaction, transaction shapes, deposits, merges and settlement: a spend is modelled per tree, with the outcome of the transaction proof as a parameter. What those processors check beside the trees is not modelled.
- `TreeAccount::init` on an account that is already initialized or has another size, and authority checks of the forester instructions: accounts are given.
- Literal hash tables: the tables are given by their recurrence.
- `hashes_with_prefix`, which selects generated key metadata at compile time, `allows`, which is one membership test, and `create_two_inputs_hash_chain` and the plain binary left chain, which no modelled path calls.
- The contents of AWS policies: a bound policy is its request and context, a policy that binds other requests or lacks the statements is foreign, and the random context is never empty.
- Prover attestation, the self-check of a candidate policy, the maximum age, and reading and writing files: an update is accepted or not by a given flag.
- UTF-8 text in error messages, and the panics' messages.
