/** The fee balance over the nullifier ledger: why the reserve of `fee_balance_reserve` is enough. */
module LedgerFees {
  import opened Arithmetic
  import opened Collections
  import opened NullifierQueue
  import opened NullifierTree
  import opened NullifierLedger
  import Fees

  /** Every queued value that is not in the tree yet has its PDA open. */
  lemma {:induction false} UnappliedHavePdas(crypto: Crypto, c: Config, l: Ledger)
    requires Invariant(crypto, c, l)
    ensures TreeIndex(c, l.queue) <= QueueIndex(c, l.queue)
    ensures QueueIndex(c, l.queue) - TreeIndex(c, l.queue) <= |l.pdas|
  {
    var q, values := l.queue, Values(l.queue);
    TimesMono(q.applied, |q.chunks|, c.zkpBatchSize);
    if c.zkpBatches <= q.done {
      TimesMono(q.done - c.zkpBatches, q.applied, c.zkpBatchSize);
    }
    FlattenIsPrefix(c, q, 0);
    WaitingHavePdas(c, l, TreeIndex(c, q) - 1);
  }

  lemma {:induction false} WaitingHavePdas(c: Config, l: Ledger, from: nat)
    requires PdasTrack(c, l) && Distinct(Values(l.queue))
    requires from <= |Values(l.queue)| && Watermark(c, l.queue) <= from + 1
    ensures |Values(l.queue)| - from <= |l.pdas|
  {
    hide Values, Watermark;
    var values := Values(l.queue);
    var waiting := values[from..];
    forall i, j | 0 <= i < j < |waiting| ensures waiting[i] != waiting[j] {
      assert waiting[i] == values[from + i] && waiting[j] == values[from + j];
    }
    ToSetSize(waiting);
    forall x | x in waiting ensures x in l.pdas {
      var i :| 0 <= i < |waiting| && waiting[i] == x;
      assert x == values[from + i];
    }
    SubsetSize(ToSet(waiting), l.pdas.Keys);
  }

  /** ZKP batches that wait to be appended, the unfinished one included. */
  function WaitingBatches(q: Queue): nat
    requires q.applied <= |q.chunks|
  {
    |q.chunks| - q.applied + (if q.open == [] then 0 else 1)
  }

  /** So the waiting ZKP batches are batches that the open PDAs span. */
  lemma {:induction false} WaitingBatchesSpanned(crypto: Crypto, c: Config, l: Ledger)
    requires Invariant(crypto, c, l)
    ensures c.zkpBatchSize > 0 && l.queue.applied <= |l.queue.chunks|
    ensures Fees.Spans(|l.pdas|, c.zkpBatchSize, WaitingBatches(l.queue))
  {
    hide Values, PdasTrack, Distinct, RootsCommit, Watermark;
    UnappliedHavePdas(crypto, c, l);
    var batches := |l.queue.chunks| - l.queue.applied;
    TimesAdd(l.queue.applied, batches, c.zkpBatchSize);
    TimesIsProduct(batches, c.zkpBatchSize);
    if l.queue.open == [] && batches > 0 {
      MulSucc(batches - 1, c.zkpBatchSize);
    }
  }

  /** What the open PDAs and the waiting ZKP batches can still draw. */
  function Outstanding(balance: nat, q: Queue, live: nat): Fees.Drain
    requires q.applied <= |q.chunks|
  {
    Fees.Drain(balance, live, WaitingBatches(q))
  }

  /** In every run, a balance that covers the obligation of the open PDAs pays every later run of
      batch updates and closes in full. */
  lemma {:induction false} ReachableDrainIsPaid(
    crypto: Crypto, c: Config, run: seq<Ledger>, steps: seq<Step>, i: nat, fees: Fees.Schedule, balance: nat,
    drain: seq<Fees.DrainStep>)
    requires Run(crypto, c, run, steps) && i < |run|
    requires Fees.Obligation(fees, |run[i].pdas|, c.zkpBatchSize) <= balance <= U64_MAX
    ensures var l := run[i];
            l.queue.applied <= |l.queue.chunks| &&
            Fees.PaidInFull(fees, Outstanding(balance, l.queue, |l.pdas|), drain)
  {
    hide Invariant, Run, Fees.PaidInFull, Fees.Obligation, Fees.Demand, Fees.Spans;
    RunKeepsInvariant(crypto, c, run, steps, i);
    var l := run[i];
    WaitingBatchesSpanned(crypto, c, l);
    var d := Outstanding(balance, l.queue, |l.pdas|);
    Fees.ObligationCoversDemand(fees, d, c.zkpBatchSize);
    Fees.SolventDrainsInFull(fees, d, drain);
  }

  /** The obligation of the ledger's open PDAs covers what can still be drawn. */
  lemma {:induction false} ObligationCovers(crypto: Crypto, c: Config, l: Ledger, fees: Fees.Schedule, balance: nat)
    requires Invariant(crypto, c, l) && Fees.Obligation(fees, |l.pdas|, c.zkpBatchSize) <= balance
    ensures l.queue.applied <= |l.queue.chunks| && Fees.Covers(fees, Outstanding(balance, l.queue, |l.pdas|))
  {
    hide Invariant, Fees.Obligation, Fees.Demand;
    WaitingBatchesSpanned(crypto, c, l);
    Fees.ObligationCoversDemand(fees, Outstanding(balance, l.queue, |l.pdas|), c.zkpBatchSize);
  }

  /** So does the reserve, for any balance that saturation cannot reach. */
  lemma {:induction false} ReserveCovers(crypto: Crypto, c: Config, l: Ledger, fees: Fees.Schedule, balance: nat)
    requires Invariant(crypto, c, l) && Fees.Reserve(fees, |l.pdas|, c.zkpBatchSize) <= balance < U64_MAX
    ensures l.queue.applied <= |l.queue.chunks| && Fees.Covers(fees, Outstanding(balance, l.queue, |l.pdas|))
  {
    hide Invariant, Fees.Obligation, Fees.Reserve, Fees.Covers;
    Fees.ReserveIsCappedObligation(fees, |l.pdas|, c.zkpBatchSize);
    ObligationCovers(crypto, c, l, fees, balance);
  }
}
