/** The fee balance of a tree account: program-libs/tree/src/fees.rs. Amounts are `u64`, so the
saturating and checked operations are written out. */
module Fees {
  import opened Arithmetic
  import opened Field
  import opened Result

  const MAX_FEE_PER_TREE: nat := 1_000_000

  function SaturatingMul(a: nat, b: nat): nat {
    Min(a * b, U64_MAX)
  }

  function SaturatingAdd(a: nat, b: nat): nat {
    Min(a + b, U64_MAX)
  }

  function SaturatingSub(a: nat, b: nat): nat {
    if a < b then 0 else a - b
  }

  datatype Schedule = Schedule(feePerTree: nat, appendReimbursement: nat, closeReimbursement: nat)

  datatype FeeError = FeeTooHigh | FeeOverflow

  /** ZKP batches that `live` open PDAs can still cause. */
  function Appends(live: nat, zkpBatchSize: nat): nat {
    if zkpBatchSize == 0 then live else DivCeil(live, zkpBatchSize)
  }

  /** `a` ZKP batches, the last one possibly unfinished, can hold values of `live` open PDAs. */
  predicate Spans(live: nat, zkpBatchSize: nat, a: nat) {
    a == 0 || (a - 1) * zkpBatchSize < live
  }

  /** The appends reserved for are the fewest that take in every open PDA, and as many as they can touch. */
  lemma {:induction false} AppendsIff(live: nat, zkpBatchSize: nat, a: nat)
    requires zkpBatchSize > 0
    ensures Appends(live, zkpBatchSize) <= a <==> live <= a * zkpBatchSize
    ensures a <= Appends(live, zkpBatchSize) <==> Spans(live, zkpBatchSize, a)
  {
    var z, appends := zkpBatchSize, Appends(live, zkpBatchSize);
    CeilingIff(live, z, a);
    if a > 0 {
      CeilingIff(live, z, a - 1);
    }
  }

  lemma {:induction false} CeilingIff(n: nat, d: nat, a: nat)
    requires d > 0
    ensures DivCeil(n, d) <= a <==> n <= a * d
  {
    DivLess(n + d - 1, d, a + 1);
    MulSucc(a, d);
  }

  /** `fee_balance_reserve`. */
  function Reserve(fees: Schedule, live: nat, zkpBatchSize: nat): nat {
    SaturatingAdd(SaturatingMul(live, fees.closeReimbursement),
                  SaturatingMul(Appends(live, zkpBatchSize), fees.appendReimbursement))
  }

  /** What the open PDAs may still draw, with unbounded arithmetic. */
  function Obligation(fees: Schedule, live: nat, zkpBatchSize: nat): nat {
    live * fees.closeReimbursement + Appends(live, zkpBatchSize) * fees.appendReimbursement
  }

  /** `balance` pays a close for every open PDA and an append for any number of ZKP batches they can touch. */
  ghost predicate PaysEveryTouched(fees: Schedule, live: nat, zkpBatchSize: nat, balance: nat) {
    forall a: nat :: Spans(live, zkpBatchSize, a) ==>
      live * fees.closeReimbursement + a * fees.appendReimbursement <= balance
  }

  /** `balance` is no more than that for the most batches they can touch. */
  ghost predicate PaysNoMore(fees: Schedule, live: nat, zkpBatchSize: nat, balance: nat) {
    exists a: nat :: Spans(live, zkpBatchSize, a) &&
      balance == live * fees.closeReimbursement + a * fees.appendReimbursement
  }

  /** The obligation is the smallest balance that pays for everything the open PDAs can touch. */
  lemma {:induction false} ObligationPays(fees: Schedule, live: nat, zkpBatchSize: nat)
    requires zkpBatchSize > 0
    ensures PaysEveryTouched(fees, live, zkpBatchSize, Obligation(fees, live, zkpBatchSize))
    ensures PaysNoMore(fees, live, zkpBatchSize, Obligation(fees, live, zkpBatchSize))
  {
    hide Spans, Appends;
    var appends := Appends(live, zkpBatchSize);
    forall a: nat | Spans(live, zkpBatchSize, a)
      ensures live * fees.closeReimbursement + a * fees.appendReimbursement <= Obligation(fees, live, zkpBatchSize)
    {
      AppendsIff(live, zkpBatchSize, a);
      MulMono(a, appends, fees.appendReimbursement);
    }
    AppendsIff(live, zkpBatchSize, appends);
  }

  /** The reserve is the obligation cut off at `u64::MAX`. */
  lemma {:induction false} ReserveIsCappedObligation(fees: Schedule, live: nat, zkpBatchSize: nat)
    ensures Reserve(fees, live, zkpBatchSize) == Min(Obligation(fees, live, zkpBatchSize), U64_MAX)
  {
  }

  /** What `take_reimbursement` pays. */
  function Paid(rate: nat, count: nat, balance: nat): nat {
    Min(SaturatingMul(rate, count), balance)
  }

  class FeeAccount {
    const zkpBatchSize: nat
    var fees: Schedule
    var feeBalance: nat
    var liveNullifierPdas: nat

    /** Totals since the account was created. */
    ghost var credits: nat
    ghost var credited: nat
    ghost var paid: nat
    ghost var released: nat

    /** Every lamport credited is held, paid out or released, and no credit exceeds the cap. */
    ghost predicate Valid()
      reads this
    {
      && fees.feePerTree <= MAX_FEE_PER_TREE
      && feeBalance <= U64_MAX && liveNullifierPdas <= U64_MAX
      && credited == feeBalance + paid + released
      && credited <= credits * MAX_FEE_PER_TREE
    }

    /** The header state `TreeAccount::init` writes for a schedule it accepts. */
    constructor (fees: Schedule, zkpBatchSize: nat)
      requires fees.feePerTree <= MAX_FEE_PER_TREE
      ensures Valid() && this.fees == fees && this.zkpBatchSize == zkpBatchSize
      ensures feeBalance == 0 && liveNullifierPdas == 0 && credited == paid == released == credits == 0
    {
      this.fees := fees;
      this.zkpBatchSize := zkpBatchSize;
      feeBalance, liveNullifierPdas := 0, 0;
      credits, credited, paid, released := 0, 0, 0, 0;
    }

    method SetFeeSchedule(update: Schedule) returns (r: Result<(), FeeError>)
      requires Valid()
      modifies this`fees
      ensures Valid() && (r.Ok? <==> update.feePerTree <= MAX_FEE_PER_TREE)
      ensures fees == if r.Ok? then update else old(fees)
    {
      if update.feePerTree > MAX_FEE_PER_TREE {
        return Err(FeeTooHigh);
      }
      fees := update;
      r := Ok(());
    }

    method CreditTreeFee() returns (r: Result<nat, FeeError>)
      requires Valid()
      modifies this`feeBalance, this`credits, this`credited
      ensures Valid() && (r.Ok? <==> old(feeBalance) + fees.feePerTree <= U64_MAX)
      ensures r.Err? ==> unchanged(this)
      ensures r.Ok? ==>
                && r.value == fees.feePerTree == credited - old(credited) <= MAX_FEE_PER_TREE
                && credits == old(credits) + 1 && feeBalance == old(feeBalance) + r.value
    {
      var fee := fees.feePerTree;
      if feeBalance + fee > U64_MAX {
        return Err(FeeOverflow);
      }
      feeBalance := feeBalance + fee;
      credits, credited := credits + 1, credited + fee;
      r := Ok(fee);
    }

    /** A positive amount is released only down to the exact obligation of the open PDAs: what is left pays
        a close each and one append for every ZKP batch they can touch, an unfinished one included. */
    method ReleaseFeeSurplus() returns (surplus: nat)
      requires Valid()
      modifies this`feeBalance, this`released
      ensures Valid() && released == old(released) + surplus && feeBalance == old(feeBalance) - surplus
      ensures surplus > 0 ==> feeBalance == Obligation(fees, liveNullifierPdas, zkpBatchSize)
      ensures surplus > 0 && zkpBatchSize > 0 ==> PaysEveryTouched(fees, liveNullifierPdas, zkpBatchSize, feeBalance)
      ensures surplus > 0 && zkpBatchSize > 0 ==> PaysNoMore(fees, liveNullifierPdas, zkpBatchSize, feeBalance)
      ensures surplus == 0 ==> feeBalance <= Obligation(fees, liveNullifierPdas, zkpBatchSize)
    {
      ReserveIsCappedObligation(fees, liveNullifierPdas, zkpBatchSize);
      if zkpBatchSize > 0 {
        ObligationPays(fees, liveNullifierPdas, zkpBatchSize);
      }
      var reserve := Reserve(fees, liveNullifierPdas, zkpBatchSize);
      surplus := SaturatingSub(feeBalance, reserve);
      feeBalance := feeBalance - surplus;
      released := released + surplus;
    }

    method RecordNullifierPdasCreated(queued: nat)
      requires Valid()
      modifies this`liveNullifierPdas
      ensures Valid() && liveNullifierPdas == Min(old(liveNullifierPdas) + queued, U64_MAX)
    {
      liveNullifierPdas := SaturatingAdd(liveNullifierPdas, queued);
    }

    method RecordNullifierPdasClosed(closed: nat)
      requires Valid()
      modifies this`liveNullifierPdas
      ensures Valid() && liveNullifierPdas + Min(closed, old(liveNullifierPdas)) == old(liveNullifierPdas)
    {
      liveNullifierPdas := SaturatingSub(liveNullifierPdas, closed);
    }

    method TakeReimbursement(rate: nat, count: nat) returns (amount: nat)
      requires Valid()
      modifies this`feeBalance, this`paid
      ensures Valid() && paid == old(paid) + amount && feeBalance == old(feeBalance) - amount
      ensures amount == Min(rate * count, old(feeBalance))
    {
      var owed := SaturatingMul(rate, count);
      amount := Min(owed, feeBalance);
      feeBalance := feeBalance - amount;
      paid := paid + amount;
    }

    method TakeAppendReimbursement(numUpdate: nat) returns (amount: nat)
      requires Valid()
      modifies this`feeBalance, this`paid
      ensures Valid() && paid == old(paid) + amount && feeBalance == old(feeBalance) - amount
      ensures amount == Min(fees.appendReimbursement * numUpdate, old(feeBalance))
    {
      amount := TakeReimbursement(fees.appendReimbursement, numUpdate);
    }

    method TakeCloseReimbursement(closed: nat) returns (amount: nat)
      requires Valid()
      modifies this`feeBalance, this`paid
      ensures Valid() && paid == old(paid) + amount && feeBalance == old(feeBalance) - amount
      ensures amount == Min(fees.closeReimbursement * closed, old(feeBalance))
    {
      amount := TakeReimbursement(fees.closeReimbursement, closed);
    }
  }

  // ----- Draining the queue: full-batch appends and closes, with no new spends.

  /** `batches` ZKP batches can still be applied and `live` PDAs closed. */
  datatype Drain = Drain(balance: nat, live: nat, batches: nat)

  datatype DrainStep = Append(count: nat) | Close(count: nat)

  function Demand(fees: Schedule, d: Drain): nat {
    d.live * fees.closeReimbursement + d.batches * fees.appendReimbursement
  }

  predicate Enabled(d: Drain, step: DrainStep) {
    match step
    case Append(n) => n <= d.batches
    case Close(n) => n <= d.live
  }

  /** What the step owes its forester, and the state after `take_reimbursement` paid for it. */
  function Owed(fees: Schedule, step: DrainStep): nat {
    match step
    case Append(n) => fees.appendReimbursement * n
    case Close(n) => fees.closeReimbursement * n
  }

  function PaidFor(fees: Schedule, d: Drain, step: DrainStep): nat {
    match step
    case Append(n) => Paid(fees.appendReimbursement, n, d.balance)
    case Close(n) => Paid(fees.closeReimbursement, n, d.balance)
  }

  function After(fees: Schedule, d: Drain, step: DrainStep): Drain
    requires Enabled(d, step)
  {
    match step
    case Append(n) => Drain(d.balance - PaidFor(fees, d, step), d.live, d.batches - n)
    case Close(n) => Drain(d.balance - PaidFor(fees, d, step), d.live - n, d.batches)
  }

  /** Every step of the run is paid in full, up to the first that cannot be taken. */
  predicate PaidInFull(fees: Schedule, d: Drain, steps: seq<DrainStep>)
    decreases |steps|
  {
    |steps| > 0 ==>
      Enabled(d, steps[0]) ==>
        PaidFor(fees, d, steps[0]) == Owed(fees, steps[0]) && PaidInFull(fees, After(fees, d, steps[0]), steps[1..])
  }

  /** A run of appends and closes is paid in full whenever the balance covers the demand. */
  lemma {:induction false} SolventDrainsInFull(fees: Schedule, d: Drain, steps: seq<DrainStep>)
    requires Demand(fees, d) <= d.balance <= U64_MAX
    ensures PaidInFull(fees, d, steps)
    decreases |steps|
  {
    if |steps| > 0 && Enabled(d, steps[0]) {
      StepIsCovered(fees, d, steps[0]);
      SolventDrainsInFull(fees, After(fees, d, steps[0]), steps[1..]);
    }
  }

  lemma {:induction false} StepIsCovered(fees: Schedule, d: Drain, step: DrainStep)
    requires Demand(fees, d) <= d.balance <= U64_MAX && Enabled(d, step)
    ensures PaidFor(fees, d, step) == Owed(fees, step)
    ensures Demand(fees, After(fees, d, step)) <= After(fees, d, step).balance
  {
    match step {
      case Append(n) =>
        MulMono(n, d.batches, fees.appendReimbursement);
        assert (d.batches - n) * fees.appendReimbursement
               == d.batches * fees.appendReimbursement - n * fees.appendReimbursement;
      case Close(n) =>
        MulMono(n, d.live, fees.closeReimbursement);
        assert (d.live - n) * fees.closeReimbursement == d.live * fees.closeReimbursement - n * fees.closeReimbursement;
    }
  }

  predicate Covers(fees: Schedule, d: Drain) {
    Demand(fees, d) <= d.balance
  }

  /** Out of a covering balance an append is paid in full, and leaves a covering balance. */
  lemma {:induction false} PaysAppend(fees: Schedule, d: Drain, n: nat, paid: nat)
    requires d.balance <= U64_MAX && n <= d.batches && paid == Min(fees.appendReimbursement * n, d.balance)
    ensures Covers(fees, d) ==>
              && paid == fees.appendReimbursement * n
              && Covers(fees, Drain(d.balance - paid, d.live, d.batches - n))
  {
    if Covers(fees, d) {
      StepIsCovered(fees, d, Append(n));
    }
  }

  /** And so is a close. */
  lemma {:induction false} PaysClose(fees: Schedule, d: Drain, n: nat, paid: nat)
    requires d.balance <= U64_MAX && n <= d.live && paid == Min(fees.closeReimbursement * n, d.balance)
    ensures Covers(fees, d) ==>
              && paid == fees.closeReimbursement * n
              && Covers(fees, Drain(d.balance - paid, d.live - n, d.batches))
  {
    if Covers(fees, d) {
      StepIsCovered(fees, d, Close(n));
    }
  }

  /** And only then: a smaller balance is short on the run that applies and closes everything. */
  lemma {:induction false} ShortBalanceFallsShort(fees: Schedule, d: Drain)
    requires d.balance < Demand(fees, d)
    ensures !PaidInFull(fees, d, [Append(d.batches), Close(d.live)])
  {
    var steps := [Append(d.batches), Close(d.live)];
    var next := After(fees, d, steps[0]);
    assert steps[1..][0] == steps[1];
  }

  lemma {:induction false} PaidInFullIffSolvent(fees: Schedule, d: Drain)
    requires d.balance <= U64_MAX
    ensures Demand(fees, d) <= d.balance <==> forall steps :: PaidInFull(fees, d, steps)
  {
    if Demand(fees, d) <= d.balance {
      forall steps ensures PaidInFull(fees, d, steps) {
        SolventDrainsInFull(fees, d, steps);
      }
    } else {
      ShortBalanceFallsShort(fees, d);
    }
  }

  /** While every queued value has its PDA open, the obligation covers the demand of a drain, the append of
      an unfinished ZKP batch included. */
  lemma {:induction false} ObligationCoversDemand(fees: Schedule, d: Drain, zkpBatchSize: nat)
    requires zkpBatchSize > 0 && Spans(d.live, zkpBatchSize, d.batches)
    ensures Demand(fees, d) <= Obligation(fees, d.live, zkpBatchSize)
  {
    hide Spans, Appends;
    AppendsIff(d.live, zkpBatchSize, d.batches);
    MulMono(d.batches, Appends(d.live, zkpBatchSize), fees.appendReimbursement);
  }

  /** As arithmetic over every `u64` balance, a saturated reserve can be met by a balance that is short of
      the demand. Capped credits keep an account's balance below that. */
  lemma {:induction false} SaturatedReserveFallsShort(zkpBatchSize: nat)
    requires zkpBatchSize > 0
    ensures var fees := Schedule(0, 0, U64_MAX);
            var d := Drain(U64_MAX, 2, 0);
            && Reserve(fees, d.live, zkpBatchSize) <= d.balance
            && !PaidInFull(fees, d, [Append(0), Close(2)])
  {
    ShortBalanceFallsShort(Schedule(0, 0, U64_MAX), Drain(U64_MAX, 2, 0));
  }

  /** Every balance from the reserve up pays every drain of `live` open PDAs over ZKP batches they can touch. */
  ghost predicate ReserveSuffices(fees: Schedule, live: nat, zkpBatchSize: nat) {
    forall balance: nat, batches: nat, steps: seq<DrainStep> ::
      Reserve(fees, live, zkpBatchSize) <= balance <= U64_MAX && Spans(live, zkpBatchSize, batches) ==>
        PaidInFull(fees, Drain(balance, live, batches), steps)
  }

  /** Exactly when the obligation is no more than a `u64` can hold. */
  lemma {:induction false} ReserveSufficesIff(fees: Schedule, live: nat, zkpBatchSize: nat)
    requires zkpBatchSize > 0
    ensures ReserveSuffices(fees, live, zkpBatchSize) <==> Obligation(fees, live, zkpBatchSize) <= U64_MAX
  {
    hide PaidInFull, Reserve, Spans, Appends;
    var most := Drain(U64_MAX, live, Appends(live, zkpBatchSize));
    ReserveIsCappedObligation(fees, live, zkpBatchSize);
    AppendsIff(live, zkpBatchSize, most.batches);
    if Obligation(fees, live, zkpBatchSize) <= U64_MAX {
      forall balance: nat, batches: nat, steps: seq<DrainStep>
        | Reserve(fees, live, zkpBatchSize) <= balance <= U64_MAX && Spans(live, zkpBatchSize, batches)
        ensures PaidInFull(fees, Drain(balance, live, batches), steps)
      {
        var d := Drain(balance, live, batches);
        ObligationCoversDemand(fees, d, zkpBatchSize);
        SolventDrainsInFull(fees, d, steps);
      }
    } else {
      ShortBalanceFallsShort(fees, most);
    }
  }
}
