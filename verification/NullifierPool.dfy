/** The nullifier side of a tree account and its PDAs, as the instructions change them. An instruction
that fails leaves everything as it was, since the runtime discards its writes. */
module NullifierPool {
  import opened Arithmetic
  import Bits
  import opened Collections
  import Fees
  import opened Field
  import opened Result
  import opened NullifierQueue
  import opened NullifierTree
  import opened NullifierUpdate
  import opened NullifierLedger
  import opened LedgerFees

  datatype PoolError =
    | Tree(error: TreeError)
    | InvalidRootIndex | ProofRejected | NullifierAlreadyQueued | InvalidNullifierPda | NullifierPdaNotClosable
    | InvalidInstructionData | FeeOverflow | UnreferencedTreeContext | InvalidUpdateSlot | TreeIsFull

  datatype CreateError = NullifierInit | FeeTooHigh

  const NULLIFIER_TREE_ZKP_BATCHES: nat := 100
  const UTXO_TREE_HEIGHT: nat := 32

  /** The leaves of the two trees: `2^40` and `2^32`, as `TreeSizes` says. */
  const NULLIFIER_TREE_CAPACITY: nat := 0x100_0000_0000
  const UTXO_TREE_CAPACITY: nat := 0x1_0000_0000
  const SUPPORTED_ZKP_BATCH_SIZES: set<nat> := {10, 4999}

  lemma {:induction false} InvariantFacts(crypto: Crypto, c: Config, l: Ledger)
    requires Invariant(crypto, c, l)
    ensures WellFormed(c, l.queue) && RootsCommit(crypto.commit, c, l.queue, l.roots)
    ensures l.queue.applied <= |l.queue.chunks|
  {
  }

  /** A spend that can happen can queue each of its values behind those before it. */
  lemma {:induction false} PrefixSpends(crypto: Crypto, c: Config, l: Ledger, xs: seq<Felt>, root: Felt, i: nat)
    requires i < |xs|
    ensures CanSpendAll(crypto, c, l, xs, root) ==> CanSpendOne(crypto, c, SpendAll(c, l, xs[..i]), xs[i], root)
  {
    if i < |xs| - 1 {
      var front := xs[..|xs| - 1];
      PrefixSpends(crypto, c, l, front, root, i);
      assert front[..i] == xs[..i];
    }
  }

  /** Every nullifier of a spend opens one more PDA. */
  lemma {:induction false} SpendOpensPdas(crypto: Crypto, c: Config, l: Ledger, xs: seq<Felt>, root: Felt)
    requires CanSpendAll(crypto, c, l, xs, root)
    ensures |SpendAll(c, l, xs).pdas| == |l.pdas| + |xs|
  {
    hide Push;
    if |xs| > 0 {
      var before, x := SpendAll(c, l, xs[..|xs| - 1]), xs[|xs| - 1];
      SpendOpensPdas(crypto, c, l, xs[..|xs| - 1], root);
      assert SpendOne(c, before, x).pdas.Keys == before.pdas.Keys + {x};
      assert |before.pdas.Keys + {x}| == |before.pdas.Keys| + 1;
    }
  }

  lemma {:induction false} CloseRemovesPdas(pdas: map<Felt, nat>, closing: seq<Felt>)
    requires Distinct(closing) && forall x :: x in closing ==> x in pdas
    ensures |pdas - ToSet(closing)| == |pdas| - |closing|
  {
    ToSetSize(closing);
    var closed := ToSet(closing);
    assert (pdas - closed).Keys == pdas.Keys - closed;
    assert |pdas.Keys - closed| == |pdas.Keys| - |closed|;
  }

  /** There are no more open PDAs than queued values, so their count never saturates. */
  lemma {:induction false} PdasFit(crypto: Crypto, c: Config, l: Ledger)
    requires Invariant(crypto, c, l)
    ensures |l.pdas| < c.capacity
  {
    var values := Values(l.queue);
    FlattenIsPrefix(c, l.queue, 0);
    forall x | x in l.pdas ensures x in ToSet(values) {
      assert values[l.pdas[x] - 1] == x;
    }
    SubsetSize(l.pdas.Keys, ToSet(values));
    ToSetSize(values);
  }

  /** The closes of one instruction, in a copy of the open PDAs. */
  method RemoveClosable(pdas: map<Felt, nat>, closing: seq<Felt>, closeBeforeIndex: nat)
    returns (r: Result<map<Felt, nat>, PoolError>)
    ensures r.Ok? <==> Distinct(closing) && forall x :: x in closing ==> x in pdas && pdas[x] < closeBeforeIndex
    ensures r.Ok? ==> r.value == pdas - ToSet(closing)
  {
    var open := pdas;
    var i := 0;
    while i < |closing|
      invariant 0 <= i <= |closing|
      invariant open == pdas - ToSet(closing[..i])
      invariant forall x :: x in closing[..i] ==> x in pdas && pdas[x] < closeBeforeIndex
      invariant Distinct(closing[..i])
    {
      var x := closing[i];
      if x !in open {
        return Err(InvalidNullifierPda);
      }
      if open[x] >= closeBeforeIndex {
        return Err(NullifierPdaNotClosable);
      }
      open := open - {x};
      assert closing[..i + 1] == closing[..i] + [x];
      assert ToSet(closing[..i + 1]) == ToSet(closing[..i]) + {x};
      i := i + 1;
    }
    assert closing[..i] == closing;
    r := Ok(open);
  }

  /** Value `i` of a spend fits behind the values before it. */
  ghost predicate Queueable(c: Config, l: Ledger, nullifiers: seq<Felt>, i: int)
    requires 0 <= i < |nullifiers|
  {
    Canonical(nullifiers[i]) && CanPush(c, SpendAll(c, l, nullifiers[..i]).queue)
  }

  /** Queue the nullifiers of one spend in a copy of the tree. */
  method QueueAll(crypto: Crypto, c: Config, tree: Layout, nullifiers: seq<Felt>, ghost l: Ledger)
    returns (r: Result<Layout, TreeError>)
    requires Represents(crypto, c, l.queue, tree)
    ensures r.Ok? <==> forall i :: 0 <= i < |nullifiers| ==> Queueable(c, l, nullifiers, i)
    ensures r.Ok? ==>
              && Represents(crypto, c, SpendAll(c, l, nullifiers).queue, r.value)
              && r.value.roots == tree.roots
  {
    hide Represents;
    var t := tree;
    var i := 0;
    while i < |nullifiers|
      invariant 0 <= i <= |nullifiers|
      invariant Represents(crypto, c, SpendAll(c, l, nullifiers[..i]).queue, t)
      invariant t.roots == tree.roots
      invariant forall m :: 0 <= m < i ==> Queueable(c, l, nullifiers, m)
    {
      ghost var q := SpendAll(c, l, nullifiers[..i]).queue;
      var inserted := InsertNullifierIntoQueue(crypto, c, t, nullifiers[i], q);
      if inserted.Err? {
        assert !Queueable(c, l, nullifiers, i);
        return Err(inserted.error);
      }
      t := inserted.value.0;
      assert nullifiers[..i + 1][..i] == nullifiers[..i];
      i := i + 1;
    }
    assert nullifiers[..i] == nullifiers;
    r := Ok(t);
  }

  /** Create the PDAs of one spend, in a copy of the open ones. Each must be unused. */
  method CreatePdas(ghost crypto: Crypto, c: Config, pdas: map<Felt, nat>, nullifiers: seq<Felt>, first: nat,
                    ghost l: Ledger, ghost root: Felt, ghost excluded: bool)
    returns (r: Option<map<Felt, nat>>)
    requires WellFormed(c, l.queue) && l.pdas == pdas && first == QueueIndex(c, l.queue)
    requires forall i :: 0 <= i < |nullifiers| ==> Queueable(c, l, nullifiers, i)
    requires excluded ==> forall x :: x in nullifiers ==> Excludes(crypto, root, x)
    ensures r.Some? ==>
              && r.value == SpendAll(c, l, nullifiers).pdas
              && QueueIndex(c, SpendAll(c, l, nullifiers).queue) == first + |nullifiers|
    ensures r.Some? && excluded ==> CanSpendAll(crypto, c, l, nullifiers, root)
    ensures r.None? ==> !CanSpendAll(crypto, c, l, nullifiers, root)
  {
    hide Excludes, CanPush, Canonical, Push, WellFormed, QueueIndex;
    var open := pdas;
    var i := 0;
    while i < |nullifiers|
      invariant 0 <= i <= |nullifiers|
      invariant open == SpendAll(c, l, nullifiers[..i]).pdas
      invariant WellFormed(c, SpendAll(c, l, nullifiers[..i]).queue)
      invariant QueueIndex(c, SpendAll(c, l, nullifiers[..i]).queue) == first + i
      invariant excluded ==> CanSpendAll(crypto, c, l, nullifiers[..i], root)
    {
      var x := nullifiers[i];
      if x in open {
        PrefixSpends(crypto, c, l, nullifiers, root, i);
        return None;
      }
      assert Queueable(c, l, nullifiers, i);
      assert nullifiers[..i + 1][..i] == nullifiers[..i];
      PushKeepsWellFormed(c, SpendAll(c, l, nullifiers[..i]).queue, x);
      open := open[x := first + i];
      i := i + 1;
    }
    assert nullifiers[..i] == nullifiers;
    r := Some(open);
  }

  /** The tree and the open PDAs are those of a ledger that keeps its invariant. */
  ghost predicate Matches(crypto: Crypto, c: Config, l: Ledger, tree: Layout, pdas: map<Felt, nat>) {
    && Represents(crypto, c, l.queue, tree)
    && l.roots == tree.roots && l.pdas == pdas
    && Invariant(crypto, c, l)
  }

  lemma {:induction false} MatchesFacts(crypto: Crypto, c: Config, l: Ledger, tree: Layout, pdas: map<Felt, nat>)
    requires Matches(crypto, c, l, tree, pdas)
    ensures WellFormed(c, l.queue) && l.queue.applied <= |l.queue.chunks| && QueueIndex(c, l.queue) <= c.capacity
    ensures l.pdas == pdas && l.roots == tree.roots
  {
    hide Represents, RootsCommit, PdasTrack, Distinct;
  }

  class Pool {
    const crypto: Crypto
    const config: Config
    const account: Fees.FeeAccount
    var tree: Layout
    var pdas: map<Felt, nat>

    /** The state tree's `next_index`. */
    var leaves: nat

    /** The abstract state the account represents. */
    ghost var ledger: Ledger

    /** The account represents its ledger, counts exactly the open PDAs, and was credited at most once per
        queued nullifier and once per output leaf. */
    ghost predicate Valid()
      reads this, account
    {
      && Matches(crypto, config, ledger, tree, pdas) && config.capacity <= NULLIFIER_TREE_CAPACITY
      && leaves <= UTXO_TREE_CAPACITY
      && account.Valid() && account.zkpBatchSize == config.zkpBatchSize
      && account.liveNullifierPdas == |pdas|
      && account.credits + 1 <= QueueIndex(config, ledger.queue) + leaves
    }

    /** The balance covers every reimbursement that the queued values can still cause. */
    ghost predicate Solvent()
      requires Valid()
      reads this, account
    {
      MatchesFacts(crypto, config, ledger, tree, pdas);
      Fees.Covers(account.fees, Outstanding(account.feeBalance, ledger.queue, account.liveNullifierPdas))
    }

    constructor (crypto: Crypto, config: Config, tree: Layout, account: Fees.FeeAccount)
      requires Represents(crypto, config, EMPTY, tree) && RootsCommit(crypto.commit, config, EMPTY, tree.roots)
      requires account.Valid() && account.zkpBatchSize == config.zkpBatchSize
      requires account.liveNullifierPdas == account.credits == 0 && config.capacity <= NULLIFIER_TREE_CAPACITY
      ensures Valid() && Initial(crypto, config, ledger) && leaves == 0
      ensures this.crypto == crypto && this.config == config && this.account == account && this.tree == tree
    {
      hide Represents, RootsCommit;
      RepresentsCounters(crypto, config, EMPTY, tree);
      EmptyAligned(config);
      this.crypto := crypto;
      this.config := config;
      this.account := account;
      this.tree := tree;
      this.pdas := map[];
      this.leaves := 0;
      this.ledger := Ledger(EMPTY, tree.roots, map[]);
    }

    /** The nullifier and fee part of `TreeAccount::init`, with the parameter checks it applies. */
    static method Create(crypto: Crypto, batchSize: nat, zkpBatchSize: nat, height: nat, fees: Fees.Schedule)
      returns (r: Result<Pool, CreateError>)
      ensures r.Ok? <==>
                && height == TREE_HEIGHT && zkpBatchSize in SUPPORTED_ZKP_BATCH_SIZES
                && batchSize == NULLIFIER_TREE_ZKP_BATCHES * zkpBatchSize && fees.feePerTree <= Fees.MAX_FEE_PER_TREE
      ensures r.Ok? ==>
                && fresh(r.value) && r.value.Valid() && Initial(crypto, r.value.config, r.value.ledger)
                && r.value.config == Config(zkpBatchSize, NULLIFIER_TREE_ZKP_BATCHES, Bits.Pow2(TREE_HEIGHT))
                && r.value.crypto == crypto && r.value.account.fees == fees
    {
      hide Represents, RootsCommit, Initial, Bits.Pow2;
      if height != TREE_HEIGHT || zkpBatchSize !in SUPPORTED_ZKP_BATCH_SIZES {
        return Err(NullifierInit);
      }
      var tree := NullifierTree.Init(crypto, batchSize, zkpBatchSize, height, NULLIFIER_TREE_ZKP_BATCHES, false);
      if tree.Err? {
        return Err(NullifierInit);
      }
      if fees.feePerTree > Fees.MAX_FEE_PER_TREE {
        return Err(FeeTooHigh);
      }
      var account := new Fees.FeeAccount(fees, zkpBatchSize);
      TreeSizes();
      var config := Config(zkpBatchSize, NULLIFIER_TREE_ZKP_BATCHES, Bits.Pow2(height));
      var pool := new Pool(crypto, config, tree.value, account);
      r := Ok(pool);
    }

    /** `close_nullifier_pdas`: close every listed PDA, or none. */
    method ClosePdas(closing: seq<Felt>) returns (r: Result<nat, PoolError>)
      requires Valid()
      modifies this, account
      ensures Valid()
      ensures r.Ok? <==>
                && closing != [] && Distinct(closing)
                && forall x :: x in closing ==> Closable(config, old(ledger), x)
      ensures r.Ok? ==>
                && Enabled(crypto, config, old(ledger), Close(ToSet(closing)))
                && ledger == Next(config, old(ledger), Close(ToSet(closing)))
                && r.value == Min(account.fees.closeReimbursement * |closing|, old(account.feeBalance))
                && account.feeBalance == old(account.feeBalance) - r.value && account.fees == old(account.fees)
      ensures r.Ok? && old(Solvent()) ==> r.value == account.fees.closeReimbursement * |closing| && Solvent()
      ensures r.Err? ==> unchanged(this) && unchanged(account)
    {
      hide Matches, Next, Enabled, Distinct, ToSet, WellFormed, Closable, Fees.Covers, Fees.FeeAccount.Valid;
      hide QueueIndex;
      MatchesFacts(crypto, config, ledger, tree, pdas);
      if closing == [] {
        return Err(InvalidInstructionData);
      }
      var open := PlanClose(closing);
      if open.Err? {
        return Err(open.error);
      }
      ghost var d := Outstanding(account.feeBalance, ledger.queue, account.liveNullifierPdas);
      BalanceFits(account);
      account.RecordNullifierPdasClosed(|closing|);
      var paid := account.TakeCloseReimbursement(|closing|);
      Fees.PaysClose(account.fees, d, |closing|, paid);
      ledger := Next(config, ledger, Close(ToSet(closing)));
      pdas := open.value;
      r := Ok(paid);
    }

    method PlanClose(closing: seq<Felt>) returns (r: Result<map<Felt, nat>, PoolError>)
      requires Valid()
      ensures WellFormed(config, ledger.queue)
      ensures r.Ok? <==> Distinct(closing) && forall x :: x in closing ==> Closable(config, ledger, x)
      ensures r.Ok? ==> Enabled(crypto, config, ledger, Close(ToSet(closing)))
      ensures r.Ok? ==>
                var next := Next(config, ledger, Close(ToSet(closing)));
                && Matches(crypto, config, next, tree, r.value) && next.queue == ledger.queue
                && |closing| + |r.value| == |pdas|
    {
      hide Represents, Invariant, Distinct, ToSet, Fees.FeeAccount.Valid, Closable;
      InvariantFacts(crypto, config, ledger);
      RepresentsCounters(crypto, config, ledger.queue, tree);
      r := RemoveClosable(pdas, closing, tree.closeBeforeIndex);
      InToSet(closing);
      CloseEnabledIff(crypto, config, ledger, ToSet(closing));
      if r.Ok? {
        StepKeepsInvariant(crypto, config, ledger, Close(ToSet(closing)));
        CloseRemovesPdas(pdas, closing);
      }
    }

    /** `batch_update_nullifier_tree`, given a sound proof system. */
    method BatchUpdate(data: UpdateData) returns (r: Result<Option<UpdateEvent>, PoolError>, paid: nat)
      requires Valid() && Sound(crypto, config.zkpBatchSize)
      modifies this, account
      ensures Valid()
      ensures r.Ok? <==> Accepts(crypto, config, old(tree), data)
      ensures r.Ok? ==>
                var n := if r.value.Some? then r.value.value.numUpdate else 0;
                && Enabled(crypto, config, old(ledger), Update(n, tree.roots))
                && ledger == Next(config, old(ledger), Update(n, tree.roots))
                && Describes(config, old(ledger).queue, n, CurrentRoot(tree), r.value)
                && paid == Min(account.fees.appendReimbursement * n, old(account.feeBalance))
                && account.feeBalance == old(account.feeBalance) - paid && account.fees == old(account.fees)
                && (old(Solvent()) ==> paid == account.fees.appendReimbursement * n && Solvent())
      ensures r.Err? ==> unchanged(this) && unchanged(account) && paid == 0
    {
      hide Matches, Next, Enabled, WellFormed, Sound, Fees.Covers, Fees.FeeAccount.Valid, Accepts, CurrentRoot;
      hide QueueIndex;
      MatchesFacts(crypto, config, ledger, tree, pdas);
      paid := 0;
      var updated; ghost var n;
      updated, n := PlanUpdate(data);
      if updated.Err? {
        return Err(Tree(updated.error)), 0;
      }
      ghost var d := Outstanding(account.feeBalance, ledger.queue, account.liveNullifierPdas);
      BalanceFits(account);
      var event := updated.value.1;
      if event.Some? {
        paid := account.TakeAppendReimbursement(event.value.numUpdate);
      }
      Fees.PaysAppend(account.fees, d, n, paid);
      ledger := Next(config, ledger, Update(n, updated.value.0.roots));
      tree := updated.value.0;
      r := Ok(event);
    }

    method PlanUpdate(data: UpdateData) returns (r: Result<(Layout, Option<UpdateEvent>), TreeError>, ghost n: nat)
      requires Valid() && Sound(crypto, config.zkpBatchSize)
      ensures r.Ok? <==> Accepts(crypto, config, tree, data)
      ensures r.Ok? ==>
                var step := Update(n, r.value.0.roots);
                var next := Next(config, ledger, step);
                && |r.value.0.roots| > 0 && WellFormed(config, ledger.queue) && WellFormed(config, next.queue)
                && Enabled(crypto, config, ledger, step) && Matches(crypto, config, next, r.value.0, pdas)
                && next.queue.chunks == ledger.queue.chunks && next.queue.applied == ledger.queue.applied + n
                && next.queue.open == ledger.queue.open
                && ledger.queue.applied + n <= |ledger.queue.chunks|
                && QueueIndex(config, next.queue) == QueueIndex(config, ledger.queue)
                && Describes(config, ledger.queue, n, CurrentRoot(r.value.0), r.value.1)
                && n == (if r.value.1.Some? then r.value.1.value.numUpdate else 0)
    {
      hide Represents, Invariant, Sound, Fees.FeeAccount.Valid;
      InvariantFacts(crypto, config, ledger);
      r, n := UpdateTreeFromQueue(crypto, config, tree, data, ledger.queue, true);
      if r.Ok? {
        ApplyManyCounts(config, ledger.queue, n);
        ApplyManyKeepsIndex(config, ledger.queue, n);
        RepresentsCounters(crypto, config, ApplyMany(config, ledger.queue, n), r.value.0);
        StepKeepsInvariant(crypto, config, ledger, Update(n, r.value.0.roots));
      }
    }

    /** The writes of one spend to one tree: queue its nullifiers, open their PDAs, credit the tree fee.
        `proofVerifies` is the outcome of the transaction proof, which excludes every nullifier from the
        nullifier root it names. */
    method Spend(nullifiers: seq<Felt>, rootIndex: nat, proofVerifies: bool) returns (r: Result<nat, PoolError>)
      requires Valid()
      requires proofVerifies && rootIndex < |tree.roots| ==>
                 forall x :: x in nullifiers ==> Excludes(crypto, tree.roots[rootIndex], x)
      modifies this, account
      ensures Valid()
      ensures r.Ok? <==>
                && nullifiers != [] && proofVerifies
                && Enabled(crypto, config, old(ledger), Step.Spend(nullifiers, rootIndex))
      ensures r.Ok? ==>
                && ledger == Next(config, old(ledger), Step.Spend(nullifiers, rootIndex))
                && r.value == QueueIndex(config, old(ledger).queue)
                && account.feeBalance == old(account.feeBalance) + account.fees.feePerTree
                && account.fees == old(account.fees) && leaves == old(leaves)
      ensures r.Err? ==> unchanged(this) && unchanged(account)
    {
      hide Matches, Next, Enabled, Fees.Covers, Fees.FeeAccount.Valid, QueueIndex, WellFormed;
      if nullifiers == [] {
        return Err(UnreferencedTreeContext);
      }
      var first := tree.queueNextIndex;
      var planned := PlanSpend(nullifiers, rootIndex, proofVerifies);
      if planned.Err? {
        return Err(planned.error);
      }
      FeeFits();
      var credited := account.CreditTreeFee();
      if credited.Err? {
        return Err(FeeOverflow);
      }
      account.RecordNullifierPdasCreated(|nullifiers|);
      ledger := Next(config, ledger, Step.Spend(nullifiers, rootIndex));
      tree, pdas := planned.value.0, planned.value.1;
      r := Ok(first);
    }

    /** The balance never comes near a `u64`: a credit is capped, and pays for a leaf of one of the trees. */
    lemma {:induction false} FeeFits()
      requires Valid()
      ensures account.feeBalance + Fees.MAX_FEE_PER_TREE < U64_MAX && account.fees.feePerTree <= Fees.MAX_FEE_PER_TREE
    {
      hide Matches;
      MatchesFacts(crypto, config, ledger, tree, pdas);
    }

    /** `apply_output_tree`: append the outputs of an instruction and credit the tree, once, unless it is an
        input tree too or there are none. `slotAccepted` is whether the state tree accepts the slot. */
    method AppendOutputs(count: nat, isInputTree: bool, slotAccepted: bool) returns (r: Result<nat, PoolError>)
      requires Valid()
      modifies this, account
      ensures Valid()
      ensures r.Ok? <==> (count > 0 ==> slotAccepted) && old(leaves) + count <= UTXO_TREE_CAPACITY
      ensures r.Ok? ==>
                && leaves == old(leaves) + count && ledger == old(ledger) && account.fees == old(account.fees)
                && r.value == (if count == 0 || isInputTree then 0 else account.fees.feePerTree)
                && account.feeBalance == old(account.feeBalance) + r.value
                && (old(Solvent()) ==> Solvent())
      ensures r.Err? ==> unchanged(this) && unchanged(account)
    {
      hide Matches, QueueIndex, WellFormed, Fees.FeeAccount.Valid;
      MatchesFacts(crypto, config, ledger, tree, pdas);
      if count > 0 && !slotAccepted {
        return Err(InvalidUpdateSlot);
      }
      if leaves + count > UTXO_TREE_CAPACITY {
        return Err(PoolError.TreeIsFull);
      }
      var fee := 0;
      if count > 0 && !isInputTree {
        FeeFits();
        var credited := account.CreditTreeFee();
        if credited.Err? {
          return Err(FeeOverflow);
        }
        fee := credited.value;
      }
      leaves := leaves + count;
      r := Ok(fee);
    }

    /** The release of `claim_tree_lamports`: a positive one leaves exactly the obligation of the open PDAs,
        and with it a solvent account. */
    method ReleaseFeeSurplus() returns (surplus: nat)
      requires Valid()
      modifies account
      ensures Valid() && account.feeBalance == old(account.feeBalance) - surplus && account.fees == old(account.fees)
      ensures surplus > 0 || old(Solvent()) ==> Solvent()
      ensures surplus > 0 ==>
                var fees, live, z := account.fees, account.liveNullifierPdas, account.zkpBatchSize;
                && Fees.PaysEveryTouched(fees, live, z, account.feeBalance)
                && Fees.PaysNoMore(fees, live, z, account.feeBalance)
      ensures surplus == 0 ==>
                account.feeBalance <= Fees.Obligation(account.fees, account.liveNullifierPdas, account.zkpBatchSize)
    {
      hide Represents, Invariant, QueueIndex, Fees.FeeAccount.Valid, Fees.Covers, Fees.Obligation;
      hide Fees.PaysEveryTouched, Fees.PaysNoMore;
      MatchesFacts(crypto, config, ledger, tree, pdas);
      WaitingBatchesSpanned(crypto, config, ledger);
      surplus := account.ReleaseFeeSurplus();
      if surplus > 0 {
        ObligationCovers(crypto, config, ledger, account.fees, account.feeBalance);
      }
    }

    /** `set_tree_fees`: the cap holds for every schedule, so the balance bound survives any change of it. */
    method SetTreeFees(fees: Fees.Schedule) returns (r: Result<(), Fees.FeeError>)
      requires Valid()
      modifies account
      ensures Valid() && (r.Ok? <==> fees.feePerTree <= Fees.MAX_FEE_PER_TREE)
      ensures account.fees == if r.Ok? then fees else old(account.fees)
      ensures account.feeBalance == old(account.feeBalance)
    {
      hide Matches, QueueIndex, Fees.FeeAccount.Valid;
      r := account.SetFeeSchedule(fees);
    }

    /** An account that holds its own reserve is solvent, so `BatchUpdate` and `ClosePdas` pay in full and keep
        it solvent. */
    lemma {:induction false} ReservedIsSolvent()
      requires Valid()
      requires Fees.Reserve(account.fees, account.liveNullifierPdas, account.zkpBatchSize) <= account.feeBalance
      ensures Solvent()
    {
      hide Represents, Invariant, QueueIndex, Fees.FeeAccount.Valid, Fees.Covers, Fees.Reserve;
      FeeFits();
      ReserveCovers(crypto, config, ledger, account.fees, account.feeBalance);
    }

    method PlanSpend(nullifiers: seq<Felt>, rootIndex: nat, proofVerifies: bool)
      returns (r: Result<(Layout, map<Felt, nat>), PoolError>)
      requires Valid()
      requires proofVerifies && rootIndex < |tree.roots| ==>
                 forall x :: x in nullifiers ==> Excludes(crypto, tree.roots[rootIndex], x)
      ensures WellFormed(config, ledger.queue) && tree.queueNextIndex == QueueIndex(config, ledger.queue)
      ensures r.Ok? <==> proofVerifies && Enabled(crypto, config, ledger, Step.Spend(nullifiers, rootIndex))
      ensures r.Ok? ==>
                var next := Next(config, ledger, Step.Spend(nullifiers, rootIndex));
                && Matches(crypto, config, next, r.value.0, r.value.1)
                && |r.value.1| == |pdas| + |nullifiers| <= U64_MAX
                && QueueIndex(config, next.queue) == QueueIndex(config, ledger.queue) + |nullifiers|
    {
      hide Represents, Invariant, Excludes, Fees.FeeAccount.Valid;
      InvariantFacts(crypto, config, ledger);
      RepresentsCounters(crypto, config, ledger.queue, tree);
      if rootIndex >= |tree.roots| || tree.roots[rootIndex] == 0 {
        return Err(InvalidRootIndex);
      }
      var queued := QueueAll(crypto, config, tree, nullifiers, ledger);
      if queued.Err? {
        ghost var i :| 0 <= i < |nullifiers| && !Queueable(config, ledger, nullifiers, i);
        PrefixSpends(crypto, config, ledger, nullifiers, tree.roots[rootIndex], i);
        return Err(Tree(queued.error));
      }
      var created := CreatePdas(crypto, config, pdas, nullifiers, tree.queueNextIndex, ledger, tree.roots[rootIndex],
                                proofVerifies);
      if created.None? {
        return Err(NullifierAlreadyQueued);
      }
      if !proofVerifies {
        return Err(ProofRejected);
      }
      ghost var step := Step.Spend(nullifiers, rootIndex);
      StepKeepsInvariant(crypto, config, ledger, step);
      SpendAllKeepsInvariant(crypto, config, ledger, nullifiers, rootIndex);
      SpendOpensPdas(crypto, config, ledger, nullifiers, tree.roots[rootIndex]);
      PdasFit(crypto, config, Next(config, ledger, step));
      r := Ok((queued.value, created.value));
    }
  }

  lemma {:induction false} BalanceFits(account: Fees.FeeAccount)
    requires account.Valid()
    ensures account.feeBalance <= U64_MAX
  {
  }

  lemma {:induction false} TreeSizes()
    ensures Bits.Pow2(UTXO_TREE_HEIGHT) == UTXO_TREE_CAPACITY && Bits.Pow2(TREE_HEIGHT) == NULLIFIER_TREE_CAPACITY
  {
    hide Bits.Pow2;
    Bits.PowSteps(0);
    Bits.PowSteps(8);
    Bits.PowSteps(16);
    Bits.PowSteps(24);
    Bits.PowSteps(32);
    Bits.PowZero();
  }
}
