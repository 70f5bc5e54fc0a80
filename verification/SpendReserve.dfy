/** Why dummy inputs cannot strand an output: `dummy_input_headroom` (program-libs/tree/src/lib.rs) and
its use in programs/shielded-pool/src/instructions/transact/tree.rs. */
module SpendReserve {
  import opened Bits
  import opened Collections
  import opened Field
  import opened NullifierQueue
  import opened NullifierTree
  import opened NullifierUpdate
  import opened NullifierLedger

  /** `remaining_queue_capacity`. */
  function Remaining(c: Config, q: Queue): (n: int)
  {
    c.capacity - QueueIndex(c, q)
  }

  /** `dummy_input_headroom`: what is left above the state tree's whole capacity. */
  function Headroom(c: Config, height: nat, q: Queue): nat {
    if Remaining(c, q) < Pow2(height) then 0 else Remaining(c, q) - Pow2(height)
  }

  /** Inputs are within the headroom exactly when the state tree's whole capacity stays free after them. */
  lemma {:induction false} HeadroomIff(c: Config, height: nat, q: Queue, k: nat)
    requires WellFormed(c, q)
    ensures Remaining(c, q) == c.capacity - 1 - |Values(q)|
    ensures Headroom(c, height, q) >= k <==> k == 0 || Remaining(c, q) - k >= Pow2(height)
  {
    hide Values, Times;
    FlattenIsPrefix(c, q, 0);
  }

  /** The nullifier of the output at each leaf of the state tree. */
  type Nullifiers = nat -> Felt

  /** Leaves of the state tree whose nullifier is queued. */
  ghost function Spent(nullifier: Nullifiers, height: nat, q: Queue): set<nat> {
    set leaf: nat | leaf < Pow2(height) && nullifier(leaf) in Values(q)
  }

  ghost predicate SpendsOutput(nullifier: Nullifiers, height: nat, x: Felt) {
    exists leaf: nat :: leaf < Pow2(height) && nullifier(leaf) == x
  }

  ghost predicate SpendsOutputs(nullifier: Nullifiers, height: nat, xs: seq<Felt>) {
    forall i :: 0 <= i < |xs| ==> SpendsOutput(nullifier, height, xs[i])
  }

  /** Inputs that spend no output of the tree are proved only while the published bit allows them. */
  ghost predicate Gated(nullifier: Nullifiers, c: Config, height: nat, l: Ledger, step: Step) {
    step.Spend? ==>
      SpendsOutputs(nullifier, height, step.nullifiers) || Headroom(c, height, l.queue) >= |step.nullifiers|
  }

  /** The queue has room for the nullifier of every output that is not spent. */
  ghost predicate Reserved(nullifier: Nullifiers, c: Config, height: nat, q: Queue) {
    Remaining(c, q) + |Spent(nullifier, height, q)| >= Pow2(height)
  }

  lemma {:induction false} SpendOneReserves(
    crypto: Crypto, nullifier: Nullifiers, c: Config, height: nat, l: Ledger, x: Felt, j: nat)
    requires Invariant(crypto, c, l) && j < |l.roots| && l.roots[j] != 0
    requires CanSpendOne(crypto, c, l, x, l.roots[j])
    requires SpendsOutput(nullifier, height, x) && Reserved(nullifier, c, height, l.queue)
    ensures Reserved(nullifier, c, height, SpendOne(c, l, x).queue)
  {
    hide Invariant, Pow2, CanSpendOne, Values;
    SpendIsNew(crypto, c, l, x, j);
    OnePushed(crypto, c, l, x, l.roots[j]);
    var leaf: nat :| leaf < Pow2(height) && nullifier(leaf) == x;
    var before, after := Spent(nullifier, height, l.queue), Spent(nullifier, height, SpendOne(c, l, x).queue);
    assert before + {leaf} <= after;
    SubsetSize(before + {leaf}, after);
  }

  lemma {:induction false} OnePushed(crypto: Crypto, c: Config, l: Ledger, x: Felt, root: Felt)
    requires Invariant(crypto, c, l) && CanSpendOne(crypto, c, l, x, root)
    ensures Values(SpendOne(c, l, x).queue) == Values(l.queue) + [x]
    ensures Remaining(c, SpendOne(c, l, x).queue) == Remaining(c, l.queue) - 1
  {
    hide PdasTrack, Distinct, RootsCommit;
    PushKeepsWellFormed(c, l.queue, x);
  }

  lemma {:induction false} SpendAllReserves(
    crypto: Crypto, nullifier: Nullifiers, c: Config, height: nat, l: Ledger, xs: seq<Felt>, j: nat)
    requires Invariant(crypto, c, l) && j < |l.roots| && l.roots[j] != 0
    requires CanSpendAll(crypto, c, l, xs, l.roots[j])
    ensures Remaining(c, SpendAll(c, l, xs).queue) == Remaining(c, l.queue) - |xs|
    ensures Reserved(nullifier, c, height, l.queue) && SpendsOutputs(nullifier, height, xs)
            ==> Reserved(nullifier, c, height, SpendAll(c, l, xs).queue)
  {
    hide Invariant, Reserved, SpendsOutput, CanSpendOne, Remaining;
    if |xs| > 0 {
      var front, x := xs[..|xs| - 1], xs[|xs| - 1];
      SpendAllReserves(crypto, nullifier, c, height, l, front, j);
      SpendAllKeepsInvariant(crypto, c, l, front, j);
      OnePushed(crypto, c, SpendAll(c, l, front), x, l.roots[j]);
      if Reserved(nullifier, c, height, l.queue) && SpendsOutputs(nullifier, height, xs) {
        SpendOneReserves(crypto, nullifier, c, height, SpendAll(c, l, front), x, j);
      }
    }
  }

  lemma {:induction false} StepReserves(
    crypto: Crypto, nullifier: Nullifiers, c: Config, height: nat, l: Ledger, step: Step)
    requires Invariant(crypto, c, l) && Enabled(crypto, c, l, step) && Gated(nullifier, c, height, l, step)
    requires Reserved(nullifier, c, height, l.queue)
    ensures Reserved(nullifier, c, height, Next(c, l, step).queue)
  {
    match step {
      case Spend(xs, j) =>
        SpendAllReserves(crypto, nullifier, c, height, l, xs, j);
      case Update(n, roots) =>
        ApplyManyKeeps(c, l.queue, n);
        ApplyManyKeepsIndex(c, l.queue, n);
        assert Spent(nullifier, height, ApplyMany(c, l.queue, n)) == Spent(nullifier, height, l.queue);
      case Close(xs) =>
    }
  }

  /** In every gated run of a tree whose nullifier capacity starts above its state capacity, the queue
      can take the nullifiers of all unspent outputs at once. */
  lemma {:induction false} RunReserves(
    crypto: Crypto, nullifier: Nullifiers, c: Config, height: nat, run: seq<Ledger>, steps: seq<Step>, i: nat)
    requires Run(crypto, c, run, steps) && i < |run| && c.capacity > Pow2(height)
    requires forall k :: 0 <= k < |steps| ==> Gated(nullifier, c, height, run[k], steps[k])
    ensures Reserved(nullifier, c, height, run[i].queue)
  {
    hide Invariant, Reserved, Gated;
    if i == 0 {
      InitiallyReserved(nullifier, c, height);
    } else {
      RunReserves(crypto, nullifier, c, height, run, steps, i - 1);
      RunKeepsInvariant(crypto, c, run, steps, i - 1);
      StepReserves(crypto, nullifier, c, height, run[i - 1], steps[i - 1]);
    }
  }

  lemma {:induction false} InitiallyReserved(nullifier: Nullifiers, c: Config, height: nat)
    requires c.capacity > Pow2(height)
    ensures Reserved(nullifier, c, height, EMPTY)
  {
  }

  /** So an unspent output is never locked out: once the queued batches are applied, its nullifier can
      be queued, however many dummy inputs came before. */
  lemma {:induction false} OutputsStaySpendable(
    crypto: Crypto, nullifier: Nullifiers, c: Config, height: nat, run: seq<Ledger>, steps: seq<Step>, i: nat,
    unspent: set<nat>)
    requires Run(crypto, c, run, steps) && i < |run| && c.capacity > Pow2(height)
    requires forall k :: 0 <= k < |steps| ==> Gated(nullifier, c, height, run[k], steps[k])
    requires forall leaf :: leaf in unspent ==> leaf < Pow2(height) && nullifier(leaf) !in Values(run[i].queue)
    ensures |unspent| <= Remaining(c, run[i].queue)
    ensures unspent != {} ==> var q := run[i].queue;
                                 q.applied <= |q.chunks| && CanPush(c, ApplyMany(c, q, |q.chunks| - q.applied))
  {
    hide Pow2, Values;
    RunReserves(crypto, nullifier, c, height, run, steps, i);
    RunKeepsInvariant(crypto, c, run, steps, i);
    var q := run[i].queue;
    var spent := Spent(nullifier, height, q);
    RangeSize(spent + unspent, Pow2(height));
    assert |spent + unspent| == |spent| + |unspent|;
    if unspent != {} {
      AppliedQueueFills(c, q);
    }
  }

  lemma {:induction false} RangeSize(s: set<nat>, n: nat)
    requires forall x :: x in s ==> x < n
    ensures |s| <= n
  {
    if n > 0 {
      RangeSize(s - {n - 1}, n - 1);
    } else {
      assert s == {};
    }
  }

  /** With every queued ZKP batch applied, only the capacity limits the queue. */
  lemma {:induction false} AppliedQueueFills(c: Config, q: Queue)
    requires WellFormed(c, q) && Remaining(c, q) > 0
    ensures CanPush(c, ApplyMany(c, q, |q.chunks| - q.applied))
  {
    var n := |q.chunks| - q.applied;
    ApplyManyKeeps(c, q, n);
    ApplyManyKeepsIndex(c, q, n);
  }
}
