/** What a run of appends means: the leaves in order, and one history entry per slot. */
module UtxoHistory {
  import opened Field

  /** One successful, nonempty `append_batch`. */
  datatype Update = Update(slot: nat, leaves: seq<Felt>)

  /** A history entry: the slot it was written in and the leaves its root covers. */
  datatype Entry = Entry(slot: nat, count: nat)

  function LeavesOf(run: seq<Update>): seq<Felt> {
    if |run| == 0 then [] else LeavesOf(run[..|run| - 1]) + run[|run| - 1].leaves
  }

  /** The entries ever written, oldest first: the empty tree, then one per slot with an update. */
  function LogOf(run: seq<Update>): (log: seq<Entry>)
    ensures |log| >= 1
  {
    if |run| == 0 then [Entry(0, 0)]
    else Logged(LogOf(run[..|run| - 1]), |run| == 1, Entry(run[|run| - 1].slot, |LeavesOf(run)|))
  }

  /** A further update in the slot of the last entry replaces it, except that the first update ever
      leaves the empty tree's entry. */
  function Logged(log: seq<Entry>, first: bool, entry: Entry): seq<Entry>
    requires |log| >= 1
  {
    if !first && entry.slot == log[|log| - 1].slot then log[|log| - 1 := entry] else log + [entry]
  }

  /** Updates are nonempty and their slots never go back. */
  ghost predicate ValidRun(run: seq<Update>) {
    && (forall i :: 0 <= i < |run| ==> |run[i].leaves| > 0)
    && (forall i, j :: 0 <= i < j < |run| ==> run[i].slot <= run[j].slot)
  }

  /** How many leaves a run appends up to and including `slot`. */
  function CountUpTo(run: seq<Update>, slot: nat): nat {
    if |run| == 0 then 0
    else CountUpTo(run[..|run| - 1], slot) + (if run[|run| - 1].slot <= slot then |run[|run| - 1].leaves| else 0)
  }

  lemma {:induction false} CountAll(run: seq<Update>, slot: nat)
    requires forall i :: 0 <= i < |run| ==> run[i].slot <= slot
    ensures CountUpTo(run, slot) == |LeavesOf(run)|
  {
    if |run| > 0 {
      CountAll(run[..|run| - 1], slot);
    }
  }

  /** The slots a run updates, and those its log has entries for. */
  ghost function SlotsOf(run: seq<Update>): set<nat> {
    if |run| == 0 then {} else SlotsOf(run[..|run| - 1]) + {run[|run| - 1].slot}
  }

  ghost function LoggedSlots(log: seq<Entry>): set<nat> {
    if |log| <= 1 then {} else LoggedSlots(log[..|log| - 1]) + {log[|log| - 1].slot}
  }

  /** Past its first entry, the empty tree, the log is in strict slot order and each entry covers
      everything appended by the end of its slot. */
  ghost predicate FinalPerSlot(run: seq<Update>, log: seq<Entry>) {
    && |log| >= 1 && log[0] == Entry(0, 0)
    && (forall i, j :: 1 <= i < j < |log| ==> log[i].slot < log[j].slot)
    && (forall i :: 1 <= i < |log| ==> log[i].count == CountUpTo(run, log[i].slot))
    && (if |run| == 0 then |log| == 1 else |log| > 1 && log[|log| - 1].slot == run[|run| - 1].slot)
  }

  lemma {:induction false} LoggedKeepsFinal(run: seq<Update>, log: seq<Entry>, entry: Entry)
    requires |run| > 0 && FinalPerSlot(run[..|run| - 1], log)
    requires entry == Entry(run[|run| - 1].slot, CountUpTo(run, run[|run| - 1].slot))
    requires |run| > 1 ==> run[|run| - 2].slot <= run[|run| - 1].slot
    ensures FinalPerSlot(run, Logged(log, |run| == 1, entry))
  {
    var log' := Logged(log, |run| == 1, entry);
    forall i | 1 <= i < |log'| - 1 ensures log'[i] == log[i] && log[i].slot < entry.slot {
    }
  }

  lemma {:induction false} LoggedAddsSlot(log: seq<Entry>, first: bool, entry: Entry)
    requires |log| >= 1 && (!first ==> |log| > 1)
    ensures LoggedSlots(Logged(log, first, entry)) == LoggedSlots(log) + {entry.slot}
  {
    var log' := Logged(log, first, entry);
    if |log'| == |log| {
      assert log'[..|log| - 1] == log[..|log| - 1];
    } else {
      assert log'[..|log|] == log;
    }
  }

  /** The log has exactly one entry per slot of the run, the final state of that slot. */
  lemma {:induction false} LogIsFinalPerSlot(run: seq<Update>)
    requires ValidRun(run)
    ensures FinalPerSlot(run, LogOf(run)) && LoggedSlots(LogOf(run)) == SlotsOf(run)
    ensures LogOf(run)[|LogOf(run)| - 1].count == |LeavesOf(run)|
  {
    hide CountUpTo, LoggedSlots;
    if |run| > 0 {
      var before, entry := run[..|run| - 1], Entry(run[|run| - 1].slot, |LeavesOf(run)|);
      LogIsFinalPerSlot(before);
      CountAll(run, entry.slot);
      LoggedKeepsFinal(run, LogOf(before), entry);
      LoggedAddsSlot(LogOf(before), |run| == 1, entry);
    } else {
      EmptyLog();
    }
  }

  lemma {:induction false} EmptyLog()
    ensures LoggedSlots([Entry(0, 0)]) == {}
  {
  }

  /** No entry covers more leaves than there are. */
  lemma {:induction false} LogWithinLeaves(run: seq<Update>)
    ensures forall i :: 0 <= i < |LogOf(run)| ==> LogOf(run)[i].count <= |LeavesOf(run)|
  {
    if |run| > 0 {
      LogWithinLeaves(run[..|run| - 1]);
    }
  }

  lemma {:induction false} OneMore(run: seq<Update>, update: Update)
    ensures LeavesOf(run + [update]) == LeavesOf(run) + update.leaves
    ensures LogOf(run + [update])
            == Logged(LogOf(run), run == [], Entry(update.slot, |LeavesOf(run)| + |update.leaves|))
  {
    assert (run + [update])[..|run|] == run;
  }

  /** A batch as appends of one leaf each. */
  function Singles(slot: nat, leaves: seq<Felt>): seq<Update> {
    if |leaves| == 0 then [] else Singles(slot, leaves[..|leaves| - 1]) + [Update(slot, [leaves[|leaves| - 1]])]
  }

  /** Two updates in one slot leave what their concatenation leaves. */
  lemma {:induction false} SameSlotMerges(run: seq<Update>, slot: nat, a: seq<Felt>, b: seq<Felt>)
    ensures LeavesOf(run + [Update(slot, a)] + [Update(slot, b)]) == LeavesOf(run + [Update(slot, a + b)])
    ensures LogOf(run + [Update(slot, a)] + [Update(slot, b)]) == LogOf(run + [Update(slot, a + b)])
  {
    OneMore(run, Update(slot, a));
    OneMore(run + [Update(slot, a)], Update(slot, b));
    OneMore(run, Update(slot, a + b));
  }

  /** Appending a batch and appending its leaves one by one in the same slot leave the same leaves and log. */
  lemma {:induction false} BatchIsOneByOne(run: seq<Update>, slot: nat, leaves: seq<Felt>)
    requires |leaves| > 0
    ensures LeavesOf(run + Singles(slot, leaves)) == LeavesOf(run + [Update(slot, leaves)])
    ensures LogOf(run + Singles(slot, leaves)) == LogOf(run + [Update(slot, leaves)])
  {
    var front, last := leaves[..|leaves| - 1], [leaves[|leaves| - 1]];
    assert front + last == leaves;
    if |leaves| == 1 {
      assert Singles(slot, leaves) == [Update(slot, leaves)];
    } else {
      assert run + Singles(slot, leaves) == run + Singles(slot, front) + [Update(slot, last)];
      BatchIsOneByOne(run, slot, front);
      OneMore(run + Singles(slot, front), Update(slot, last));
      OneMore(run + [Update(slot, front)], Update(slot, last));
      SameSlotMerges(run, slot, front, last);
    }
  }
}
