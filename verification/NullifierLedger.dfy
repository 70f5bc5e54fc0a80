/** The nullifier protocol across instructions: spends queue nullifiers and open PDAs, batch updates
apply them, closes remove PDAs. Instructions are atomic, so each is one step of the ledger.

programs/shielded-pool/src/instructions/{transact/tree,batch_update_nullifier_tree,close_nullifier_pdas}.rs
 */
module NullifierLedger {
  import opened Collections
  import opened Field
  import opened NullifierQueue
  import opened NullifierTree
  import opened NullifierUpdate

  /** The queue, the root history, and the open PDAs with the queue index each records. */
  datatype Ledger = Ledger(queue: Queue, roots: seq<Felt>, pdas: map<Felt, nat>)

  datatype Step =
    | Spend(nullifiers: seq<Felt>, rootIndex: nat)
    | Update(count: nat, roots: seq<Felt>)
    | Close(closed: set<Felt>)

  /** A sound non-inclusion proof against `root`: no list of values under it contains `x`. */
  ghost predicate Excludes(crypto: Crypto, root: Felt, x: Felt) {
    forall leaves {:trigger Opens(crypto, root, leaves)} :: Opens(crypto, root, leaves) ==> x !in leaves
  }

  /** Queue one nullifier and create its PDA. */
  function SpendOne(c: Config, l: Ledger, x: Felt): Ledger {
    Ledger(Push(c, l.queue, x), l.roots, l.pdas[x := QueueIndex(c, l.queue)])
  }

  ghost predicate CanSpendOne(crypto: Crypto, c: Config, l: Ledger, x: Felt, root: Felt) {
    && Canonical(x) && CanPush(c, l.queue)
    && x !in l.pdas
    && Excludes(crypto, root, x)
  }

  /** The nullifiers of one instruction are queued in input order. */
  function SpendAll(c: Config, l: Ledger, xs: seq<Felt>): Ledger {
    if |xs| == 0 then l else SpendOne(c, SpendAll(c, l, xs[..|xs| - 1]), xs[|xs| - 1])
  }

  ghost predicate CanSpendAll(crypto: Crypto, c: Config, l: Ledger, xs: seq<Felt>, root: Felt) {
    |xs| > 0 ==>
      && CanSpendAll(crypto, c, l, xs[..|xs| - 1], root)
      && CanSpendOne(crypto, c, SpendAll(c, l, xs[..|xs| - 1]), xs[|xs| - 1], root)
  }

  /** A spend is proved against a root that `root_by_index` returns, an update leaves roots that commit
      the longer prefix, and only PDAs below the watermark are closed. */
  ghost predicate Enabled(crypto: Crypto, c: Config, l: Ledger, step: Step)
    requires WellFormed(c, l.queue)
  {
    match step
    case Spend(xs, j) => j < |l.roots| && l.roots[j] != 0 && CanSpendAll(crypto, c, l, xs, l.roots[j])
    case Update(n, roots) =>
      && l.queue.applied + n <= |l.queue.chunks|
      && WellFormed(c, ApplyMany(c, l.queue, n)) && RootsCommit(crypto.commit, c, ApplyMany(c, l.queue, n), roots)
    case Close(xs) => forall x :: x in xs ==> x in l.pdas && l.pdas[x] < Watermark(c, l.queue)
  }

  ghost function Next(c: Config, l: Ledger, step: Step): Ledger {
    match step
    case Spend(xs, j) => SpendAll(c, l, xs)
    case Update(n, roots) => l.(queue := ApplyMany(c, l.queue, n), roots := roots)
    case Close(xs) => l.(pdas := l.pdas - xs)
  }

  /** PDAs record the index of a queued value, and every value at or above the watermark has one. */
  ghost predicate PdasTrack(c: Config, l: Ledger) {
    var values := Values(l.queue);
    && (forall x :: x in l.pdas ==> 1 <= l.pdas[x] <= |values| && values[l.pdas[x] - 1] == x)
    && (forall p :: 0 <= p < |values| && Watermark(c, l.queue) <= p + 1 ==> values[p] in l.pdas)
  }

  ghost predicate Invariant(crypto: Crypto, c: Config, l: Ledger) {
    && WellFormed(c, l.queue) && Aligned(c, l.queue) && RootsCommit(crypto.commit, c, l.queue, l.roots)
    && PdasTrack(c, l)
    && Distinct(Values(l.queue))
  }

  /** A value whose PDA is gone is below the watermark, so every root that can be looked up has it. */
  lemma {:induction false} SafePdaLifetime(crypto: Crypto, c: Config, l: Ledger, i: nat, j: nat)
    requires Invariant(crypto, c, l) && 1 <= i <= |Values(l.queue)| && j < |l.roots| && l.roots[j] != 0
    ensures
      || Values(l.queue)[i - 1] in l.pdas
      || exists leaves :: Opens(crypto, l.roots[j], leaves) && Values(l.queue)[i - 1] in leaves
  {
    if Values(l.queue)[i - 1] !in l.pdas {
      var s := AcceptedRoot(crypto.commit, c, l.queue, l.roots, j);
      RootsContainClosable(c, l.queue, s, i);
      assert Opens(crypto, l.roots[j], Flatten(l.queue.chunks[..s]));
    }
  }

  /** So a nullifier that passes both checks was never queued before. */
  lemma {:induction false} SpendIsNew(crypto: Crypto, c: Config, l: Ledger, x: Felt, j: nat)
    requires Invariant(crypto, c, l) && j < |l.roots| && l.roots[j] != 0
    requires CanSpendOne(crypto, c, l, x, l.roots[j])
    ensures x !in Values(l.queue)
  {
    if x in Values(l.queue) {
      var i :| 0 <= i < |Values(l.queue)| && Values(l.queue)[i] == x;
      SafePdaLifetime(crypto, c, l, i + 1, j);
    }
  }

  lemma {:induction false} SpendOneKeepsInvariant(crypto: Crypto, c: Config, l: Ledger, x: Felt, j: nat)
    requires Invariant(crypto, c, l) && j < |l.roots| && l.roots[j] != 0
    requires CanSpendOne(crypto, c, l, x, l.roots[j])
    ensures Invariant(crypto, c, SpendOne(c, l, x))
  {
    SpendIsNew(crypto, c, l, x, j);
    PushKeepsWellFormed(c, l.queue, x);
    PushKeepsAligned(c, l.queue, x);
    PushKeepsRoots(crypto.commit, c, l.queue, l.roots, x);
    FlattenIsPrefix(c, l.queue, 0);
    assert Watermark(c, Push(c, l.queue, x)) == Watermark(c, l.queue);
  }

  lemma {:induction false} SpendAllKeepsInvariant(crypto: Crypto, c: Config, l: Ledger, xs: seq<Felt>, j: nat)
    requires Invariant(crypto, c, l) && j < |l.roots| && l.roots[j] != 0
    requires CanSpendAll(crypto, c, l, xs, l.roots[j])
    ensures Invariant(crypto, c, SpendAll(c, l, xs)) && SpendAll(c, l, xs).roots == l.roots
  {
    if |xs| > 0 {
      SpendAllKeepsInvariant(crypto, c, l, xs[..|xs| - 1], j);
      SpendOneKeepsInvariant(crypto, c, SpendAll(c, l, xs[..|xs| - 1]), xs[|xs| - 1], j);
    }
  }

  lemma {:induction false} ApplyManyCounts(c: Config, q: Queue, n: nat)
    ensures ApplyMany(c, q, n).applied == q.applied + n && ApplyMany(c, q, n).chunks == q.chunks
    ensures ApplyMany(c, q, n).open == q.open
  {
    if n > 0 {
      ApplyManyCounts(c, q, n - 1);
    }
  }

  lemma {:induction false} ApplyManyKeepsIndex(c: Config, q: Queue, n: nat)
    ensures QueueIndex(c, ApplyMany(c, q, n)) == QueueIndex(c, q)
  {
    if n > 0 {
      ApplyManyKeepsIndex(c, q, n - 1);
    }
  }

  /** Updates leave the queued values and never lower the watermark. */
  lemma {:induction false} ApplyManyKeeps(c: Config, q: Queue, n: nat)
    requires WellFormed(c, q) && q.applied + n <= |q.chunks|
    ensures var q' := ApplyMany(c, q, n);
            && WellFormed(c, q') && q'.applied == q.applied + n && q'.chunks == q.chunks
            && Values(q') == Values(q) && Watermark(c, q) <= Watermark(c, q')
  {
    if n > 0 {
      ApplyManyKeeps(c, q, n - 1);
      ApplyManyCounts(c, q, n);
      var before := ApplyMany(c, q, n - 1);
      ApplyKeepsWellFormed(c, before);
      if c.zkpBatches <= before.done {
        TimesMono(before.done - c.zkpBatches, Apply(c, before).done - c.zkpBatches, c.zkpBatchSize);
      }
    }
  }

  lemma {:induction false} ApplyManyAligned(c: Config, q: Queue, n: nat)
    requires Aligned(c, q)
    ensures Aligned(c, ApplyMany(c, q, n))
  {
    hide Aligned;
    if n > 0 {
      ApplyManyAligned(c, q, n - 1);
      ApplyKeepsAligned(c, ApplyMany(c, q, n - 1));
    }
  }

  lemma {:induction false} StepKeepsInvariant(crypto: Crypto, c: Config, l: Ledger, step: Step)
    requires Invariant(crypto, c, l) && Enabled(crypto, c, l, step)
    ensures Invariant(crypto, c, Next(c, l, step))
  {
    match step {
      case Spend(xs, j) => SpendAllKeepsInvariant(crypto, c, l, xs, j);
      case Update(n, roots) =>
        ApplyManyKeeps(c, l.queue, n);
        ApplyManyAligned(c, l.queue, n);
      case Close(xs) =>
        // A closed value has its only queue index below the watermark.
        var values := Values(l.queue);
        forall p | 0 <= p < |values| && Watermark(c, l.queue) <= p + 1 ensures values[p] in l.pdas - xs {
          var x := values[p];
          assert x in l.pdas;
          var i := l.pdas[x];
          assert values[i - 1] == x;
          assert i - 1 == p;
        }
    }
  }

  /** The PDA of `x` is open, and the queue batch after its own is fully applied. */
  ghost predicate Closable(c: Config, l: Ledger, x: Felt) {
    && ValidConfig(c) && x in l.pdas && l.pdas[x] >= 1
    && (BatchSizePositive(c); NextBatchApplied(c, l.queue, l.pdas[x]))
  }

  /** Exactly such PDAs may be closed: the watermark neither runs ahead nor lags. */
  lemma {:induction false} CloseEnabledIff(crypto: Crypto, c: Config, l: Ledger, xs: set<Felt>)
    requires Invariant(crypto, c, l)
    ensures Enabled(crypto, c, l, Close(xs)) <==> forall x :: x in xs ==> Closable(c, l, x)
  {
    forall x | x in xs && x in l.pdas
      ensures 1 <= l.pdas[x] && (l.pdas[x] < Watermark(c, l.queue) <==> Closable(c, l, x))
    {
      ClosableIff(c, l.queue, l.pdas[x]);
    }
  }

  // ----- Runs.

  ghost predicate Initial(crypto: Crypto, c: Config, l: Ledger) {
    && l.queue == EMPTY && l.pdas == map[]
    && WellFormed(c, EMPTY) && RootsCommit(crypto.commit, c, EMPTY, l.roots)
  }

  ghost predicate Run(crypto: Crypto, c: Config, run: seq<Ledger>, steps: seq<Step>) {
    && |run| == |steps| + 1
    && Initial(crypto, c, run[0])
    && forall i :: 0 <= i < |steps| ==>
         WellFormed(c, run[i].queue) && Enabled(crypto, c, run[i], steps[i]) && run[i + 1] == Next(c, run[i], steps[i])
  }

  lemma {:induction false} RunKeepsInvariant(crypto: Crypto, c: Config, run: seq<Ledger>, steps: seq<Step>, i: nat)
    requires Run(crypto, c, run, steps) && i < |run|
    ensures Invariant(crypto, c, run[i])
  {
    if i > 0 {
      RunKeepsInvariant(crypto, c, run, steps, i - 1);
      StepKeepsInvariant(crypto, c, run[i - 1], steps[i - 1]);
    } else {
      EmptyAligned(c);
    }
  }

  /** In every run, no nullifier is queued twice, even after its PDA was closed. */
  lemma {:induction false} NoDoubleSpend(crypto: Crypto, c: Config, run: seq<Ledger>, steps: seq<Step>, i: nat)
    requires Run(crypto, c, run, steps) && i < |run|
    ensures Distinct(Values(run[i].queue))
  {
    RunKeepsInvariant(crypto, c, run, steps, i);
  }
}
