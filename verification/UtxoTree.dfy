/** The append-only state tree: program-libs/tree/src/smt.rs, and the state-tree half of `check_layout`
in program-libs/tree/src/lib.rs. */
module UtxoTree {
  import opened Bits
  import opened Field
  import opened Result
  import opened MerkleTree
  import opened UtxoHistory

  const ROOT_HISTORY_CAPACITY: nat := 500
  const MAX_HEIGHT: nat := 40

  datatype TreeError = HeightTooLarge | InvalidUpdateSlot | TreeIsFull | InvalidRootIndex

  /** The account's fields. */
  datatype State = State(
    nextIndex: nat, root: Felt, cursor: nat, length: nat, lastUpdateSlot: nat,
    subtrees: seq<Felt>, history: seq<Felt>)

  /** The newest of `n` entries that the ring stores at `j`. */
  function NewestIn(n: nat, j: nat): (i: nat)
    requires j < n && j < ROOT_HISTORY_CAPACITY
    ensures i < n <= i + ROOT_HISTORY_CAPACITY && i % ROOT_HISTORY_CAPACITY == j
  {
    n - 1 - (n - 1 - j) % ROOT_HISTORY_CAPACITY
  }

  /** The root a log entry stands for. */
  function EntryRoot(h: Hash2, height: nat, leaves: seq<Felt>, entry: Entry): Felt {
    if entry.count <= |leaves| then Root(h, leaves[..entry.count], height) else 0
  }

  /** Place `j` of the ring: the newest entry whose turn it is, or what the account held before `init`
      while no entry has reached it. */
  function RingEntry(h: Hash2, height: nat, stale: seq<Felt>, leaves: seq<Felt>, log: seq<Entry>, j: nat): Felt
    requires j < |stale| == ROOT_HISTORY_CAPACITY
  {
    if j < |log| then EntryRoot(h, height, leaves, log[NewestIn(|log|, j)]) else stale[j]
  }

  function HistoryOf(h: Hash2, height: nat, stale: seq<Felt>, leaves: seq<Felt>, log: seq<Entry>): seq<Felt>
    requires |stale| == ROOT_HISTORY_CAPACITY
  {
    seq(ROOT_HISTORY_CAPACITY, j requires 0 <= j < ROOT_HISTORY_CAPACITY => RingEntry(h, height, stale, leaves, log, j))
  }

  /** The whole account as a function of the leaves and the log. */
  function StateFor(h: Hash2, height: nat, stale: seq<Felt>, leaves: seq<Felt>, log: seq<Entry>): State
    requires |stale| == ROOT_HISTORY_CAPACITY && |log| >= 1
  {
    State(
      |leaves|, Root(h, leaves, height), (|log| - 1) % ROOT_HISTORY_CAPACITY,
      if |log| < ROOT_HISTORY_CAPACITY then |log| else ROOT_HISTORY_CAPACITY, log[|log| - 1].slot,
      seq(height, i requires 0 <= i => LeftSibling(h, leaves, i)),
      HistoryOf(h, height, stale, leaves, log))
  }

  /** The whole account as a function of the updates since `init`. */
  function StateOf(h: Hash2, height: nat, stale: seq<Felt>, run: seq<Update>): State
    requires |stale| == ROOT_HISTORY_CAPACITY
  {
    StateFor(h, height, stale, LeavesOf(run), LogOf(run))
  }

  lemma {:induction false} NewestAfterAppend(n: nat, j: nat)
    requires j < n && j < ROOT_HISTORY_CAPACITY && j != n % ROOT_HISTORY_CAPACITY
    ensures NewestIn(n + 1, j) == NewestIn(n, j)
  {
  }

  /** Older entries keep their roots when leaves are appended. */
  lemma {:induction false} EntryRootKept(h: Hash2, height: nat, leaves: seq<Felt>, more: seq<Felt>, entry: Entry)
    requires leaves <= more && entry.count <= |leaves|
    ensures EntryRoot(h, height, more, entry) == EntryRoot(h, height, leaves, entry)
  {
    assert more[..entry.count] == leaves[..entry.count];
  }

  /** A new entry takes the place after the cursor's, and evicts only what was there. */
  lemma {:induction false} RingAppends(
    h: Hash2, height: nat, stale: seq<Felt>, leaves: seq<Felt>, more: seq<Felt>, log: seq<Entry>, entry: Entry)
    requires |stale| == ROOT_HISTORY_CAPACITY && leaves <= more && entry.count == |more|
    requires forall i :: 0 <= i < |log| ==> log[i].count <= |leaves|
    ensures HistoryOf(h, height, stale, more, log + [entry])
            == HistoryOf(h, height, stale, leaves, log)[|log| % ROOT_HISTORY_CAPACITY := Root(h, more, height)]
  {
    hide Root, NewestIn, EntryRoot;
    CursorEntry(h, height, stale, more, log + [entry]);
    forall j | 0 <= j < ROOT_HISTORY_CAPACITY && j != |log| % ROOT_HISTORY_CAPACITY
      ensures RingEntry(h, height, stale, more, log + [entry], j) == RingEntry(h, height, stale, leaves, log, j)
    {
      if j < |log| {
        NewestAfterAppend(|log|, j);
        EntryRootKept(h, height, leaves, more, log[NewestIn(|log|, j)]);
      }
    }
  }

  lemma {:induction false} OlderElsewhere(n: nat, j: nat)
    requires j < n && j < ROOT_HISTORY_CAPACITY && j != (n - 1) % ROOT_HISTORY_CAPACITY
    ensures NewestIn(n, j) < n - 1
  {
  }

  /** A further update in the same slot overwrites the cursor's place. */
  lemma {:induction false} RingReplaces(
    h: Hash2, height: nat, stale: seq<Felt>, leaves: seq<Felt>, more: seq<Felt>, log: seq<Entry>, entry: Entry)
    requires |stale| == ROOT_HISTORY_CAPACITY && leaves <= more && entry.count == |more| && |log| >= 1
    requires forall i :: 0 <= i < |log| ==> log[i].count <= |leaves|
    ensures HistoryOf(h, height, stale, more, log[|log| - 1 := entry])
            == HistoryOf(h, height, stale, leaves, log)[(|log| - 1) % ROOT_HISTORY_CAPACITY := Root(h, more, height)]
  {
    hide Root, NewestIn, EntryRoot;
    var place, log' := (|log| - 1) % ROOT_HISTORY_CAPACITY, log[|log| - 1 := entry];
    forall j | 0 <= j < ROOT_HISTORY_CAPACITY && j != place
      ensures RingEntry(h, height, stale, more, log', j) == RingEntry(h, height, stale, leaves, log, j)
    {
      if j < |log| {
        OlderElsewhere(|log|, j);
        EntryRootKept(h, height, leaves, more, log[NewestIn(|log|, j)]);
      }
    }
    CursorEntry(h, height, stale, more, log');
  }

  lemma {:induction false} CursorEntry(h: Hash2, height: nat, stale: seq<Felt>, leaves: seq<Felt>, log: seq<Entry>)
    requires |stale| == ROOT_HISTORY_CAPACITY && |log| >= 1 && log[|log| - 1].count == |leaves|
    ensures RingEntry(h, height, stale, leaves, log, (|log| - 1) % ROOT_HISTORY_CAPACITY) == Root(h, leaves, height)
  {
    hide Root;
    assert leaves[..|leaves|] == leaves;
    assert NewestIn(|log|, (|log| - 1) % ROOT_HISTORY_CAPACITY) == |log| - 1;
  }

  /** The left siblings that later appends read: one per level whose bit of `next_index` is set. */
  ghost predicate LeftSiblings(h: Hash2, leaves: seq<Felt>, subtrees: seq<Felt>) {
    forall i :: 0 <= i < |subtrees| && Ancestor(|leaves|, i) % 2 == 1 ==>
      subtrees[i] == Node(h, leaves, i, Ancestor(|leaves|, i) - 1)
  }

  /** The state after an update has every left sibling a later append reads. */
  lemma {:induction false} UpdateHasLeftSiblings(h: Hash2, leaves: seq<Felt>, subtrees: seq<Felt>)
    requires Siblings(h, leaves, subtrees)
    ensures LeftSiblings(h, leaves, subtrees)
  {
    forall i | 0 <= i < |subtrees| && Ancestor(|leaves|, i) % 2 == 1
      ensures subtrees[i] == Node(h, leaves, i, Ancestor(|leaves|, i) - 1)
    {
      if |leaves| > 0 {
        AncestorOfNext(|leaves| - 1, i);
      } else {
        AncestorOfZero(i);
      }
    }
  }

  lemma {:induction false} AncestorOfZero(level: nat)
    ensures Ancestor(0, level) == 0
  {
    if level > 0 {
      AncestorOfZero(level - 1);
    }
  }

  class UtxoTree {
    const h: Hash2
    const height: nat
    var nextIndex: nat
    var root: Felt
    var cursor: nat
    var length: nat
    var lastUpdateSlot: nat
    const subtrees: array<Felt>
    const history: array<Felt>

    /** The history bytes `init` found, and the updates since. */
    ghost var stale: seq<Felt>
    ghost var run: seq<Update>

    ghost function Snapshot(): State
      reads this, subtrees, history
    {
      State(nextIndex, root, cursor, length, lastUpdateSlot, subtrees[..], history[..])
    }

    ghost predicate Valid()
      reads this, subtrees, history
    {
      && subtrees != history && height <= MAX_HEIGHT
      && |stale| == ROOT_HISTORY_CAPACITY
      && ValidRun(run) && |LeavesOf(run)| <= Pow2(height)
      && Snapshot() == StateOf(h, height, stale, run)
    }

    /** An account as it is found, before `init`. */
    constructor (h: Hash2, height: nat, subtrees: array<Felt>, history: array<Felt>)
      requires subtrees.Length == height && history.Length == ROOT_HISTORY_CAPACITY && subtrees != history
      ensures this.h == h && this.height == height && this.subtrees == subtrees && this.history == history
    {
      this.h := h;
      this.height := height;
      this.subtrees := subtrees;
      this.history := history;
    }

    /** `init`: refused for any height but the account's own, and for one past the zero-hash table. The
        history past its first entry keeps the bytes it finds. */
    method Init(height: nat) returns (r: Result<(), TreeError>)
      requires subtrees.Length == this.height && history.Length == ROOT_HISTORY_CAPACITY && subtrees != history
      modifies this, subtrees, history
      ensures r.Ok? <==> height == this.height && height <= MAX_HEIGHT
      ensures r.Ok? ==> Valid() && run == []
      ensures r.Err? ==> r.error == HeightTooLarge && Snapshot() == old(Snapshot()) && run == old(run)
    {
      if height != this.height || height > MAX_HEIGHT {
        return Err(HeightTooLarge);
      }
      nextIndex := 0;
      root := Zero(h, height);
      cursor := 0;
      length := 1;
      lastUpdateSlot := 0;
      stale := history[..];
      run := [];
      var i := 0;
      while i < height
        invariant 0 <= i <= height
        invariant forall k :: 0 <= k < i ==> subtrees[k] == Zero(h, k)
        modifies subtrees
      {
        subtrees[i] := Zero(h, i);
        i := i + 1;
      }
      history[0] := Zero(h, height);
      forall k | 0 <= k <= height ensures Node(h, [], k, 0) == Zero(h, k) {
        EmptyNode(h, [], k, 0);
      }
      assert subtrees[..] == StateOf(h, height, stale, []).subtrees;
      assert history[..] == StateOf(h, height, stale, []).history;
      r := Ok(());
    }

    /** The path walk of one leaf in `append_batch`. Every level is hashed for the last leaf of a batch;
        for any other leaf the walk stops at the first level where it is a left child. */
    method AppendLeaf(leaf: Felt, isLast: bool, ghost leaves: seq<Felt>) returns (hash: Felt, ghost calls: nat)
      requires nextIndex == |leaves| < Pow2(height) && subtrees.Length == height
      requires LeftSiblings(h, leaves, subtrees[..])
      modifies subtrees
      ensures LeftSiblings(h, leaves + [leaf], subtrees[..])
      ensures isLast ==>
                && hash == Root(h, leaves + [leaf], height) && calls == height
                && Siblings(h, leaves + [leaf], subtrees[..])
      ensures !isLast ==> calls + Popcount(|leaves| + 1) == Popcount(|leaves|) + 1
    {
      hide LeftSiblings, Carries, Popcount, Node, Pow2, LeftSibling;
      ghost var m, all, before := |leaves|, leaves + [leaf], subtrees[..];
      var currentIndex := nextIndex;
      hash := leaf;
      calls := 0;
      var i := 0;
      PathStarts(h, leaves, leaf);
      while i < height
        invariant 0 <= i <= height && calls == i
        invariant currentIndex == Ancestor(m, i) && hash == Node(h, all, i, currentIndex)
        invariant forall j :: i <= j < height ==> subtrees[j] == before[j]
        invariant isLast ==> forall j :: 0 <= j < i ==> subtrees[j] == LeftSibling(h, all, j)
        invariant !isLast ==> subtrees[..] == before && Carries(m, i)
      {
        if currentIndex % 2 == 0 {
          subtrees[i] := hash;
          LeftChildStep(h, all, i);
          if !isLast {
            CarryStops(m, i);
            StoppedHasSiblings(h, leaves, leaf, before, i, subtrees[..]);
            return;
          }
          hash := h(hash, Zero(h, i));
        } else {
          var left := subtrees[i];
          ReadsSibling(h, leaves, before, i);
          RightChildStep(h, leaves, leaf, i);
          hash := h(left, hash);
          if !isLast {
            CarryStep(m, i);
          }
        }
        calls := calls + 1;
        currentIndex := currentIndex / 2;
        i := i + 1;
      }
      PathEnds(m, height);
      if isLast {
        UpdateHasLeftSiblings(h, all, subtrees[..]);
      } else {
        CarryStops(m, height);
        FullHasSiblings(h, leaves, leaf, before);
      }
    }

    /** The ring fields hold `log` over `leaves`. */
    ghost predicate RingHolds(leaves: seq<Felt>, log: seq<Entry>)
      reads `cursor, `length, `lastUpdateSlot, `stale, history
    {
      && |stale| == ROOT_HISTORY_CAPACITY && |log| >= 1
      && cursor == (|log| - 1) % ROOT_HISTORY_CAPACITY
      && length == (if |log| < ROOT_HISTORY_CAPACITY then |log| else ROOT_HISTORY_CAPACITY)
      && lastUpdateSlot == log[|log| - 1].slot
      && history[..] == HistoryOf(h, height, stale, leaves, log)
    }

    lemma {:induction false} RingEnds(leaves: seq<Felt>, log: seq<Entry>)
      requires RingHolds(leaves, log)
      ensures |log| >= 1 && lastUpdateSlot == log[|log| - 1].slot && history.Length == ROOT_HISTORY_CAPACITY
    {
      hide RingEntry;
    }

    /** `push_root`: the ring afterwards holds the log with the new entry. */
    method PushRoot(newRoot: Felt, slot: nat, isFirstUpdate: bool,
                    ghost leaves: seq<Felt>, ghost more: seq<Felt>, ghost log: seq<Entry>)
      requires RingHolds(leaves, log) && leaves <= more && newRoot == Root(h, more, height)
      requires forall i :: 0 <= i < |log| ==> log[i].count <= |leaves|
      modifies `cursor, `length, `lastUpdateSlot, history
      ensures RingHolds(more, Logged(log, isFirstUpdate, Entry(slot, |more|)))
    {
      hide HistoryOf, Root;
      ghost var entry := Entry(slot, |more|);
      HistoryLength(h, height, stale, leaves, log);
      if !isFirstUpdate && slot == lastUpdateSlot {
        RingReplaces(h, height, stale, leaves, more, log, entry);
        history[cursor] := newRoot;
        return;
      }
      RingAppends(h, height, stale, leaves, more, log, entry);
      var next := (cursor + 1) % ROOT_HISTORY_CAPACITY;
      length := if length + 1 < ROOT_HISTORY_CAPACITY then length + 1 else ROOT_HISTORY_CAPACITY;
      history[next] := newRoot;
      cursor := next;
      lastUpdateSlot := slot;
    }

    lemma {:induction false} StateParts()
      requires Valid()
      ensures var leaves, log := LeavesOf(run), LogOf(run);
              && RingHolds(leaves, log) && LeftSiblings(h, leaves, subtrees[..])
              && nextIndex == |leaves| <= Pow2(height) && subtrees.Length == height && subtrees != history
              && (nextIndex == 0 <==> run == [])
              && forall i :: 0 <= i < |log| ==> log[i].count <= |leaves|
    {
      hide LogOf, HistoryOf, Root, Pow2, LeftSibling;
      LogWithinLeaves(run);
      UpdateHasLeftSiblings(h, LeavesOf(run), subtrees[..]);
    }

    lemma {:induction false} StateAfter(was: seq<Update>, update: Update)
      requires ValidRun(was) && run == was + [update] && |update.leaves| > 0
      requires was != [] ==> LogOf(was)[|LogOf(was)| - 1].slot <= update.slot
      requires var leaves := LeavesOf(was) + update.leaves;
               && RingHolds(leaves, Logged(LogOf(was), was == [], Entry(update.slot, |leaves|)))
               && Siblings(h, leaves, subtrees[..]) && root == Root(h, leaves, height)
               && nextIndex == |leaves| <= Pow2(height)
      requires subtrees.Length == height <= MAX_HEIGHT && subtrees != history
      ensures Valid()
    {
      hide LogOf, LeavesOf, HistoryOf, Root, Pow2, LeftSibling, Logged;
      OneMore(was, update);
      RunExtends(was, update);
    }

    /** `append_batch`. A full tree keeps the leaves appended before the error, but neither the root nor
        the history changes. */
    method AppendBatch(batch: seq<Felt>, slot: nat) returns (r: Result<(), TreeError>, ghost calls: nat)
      requires Valid()
      modifies this, subtrees, history
      ensures r == Err(InvalidUpdateSlot) <==> |batch| > 0 && old(nextIndex) > 0 && slot < old(lastUpdateSlot)
      ensures r == Err(TreeIsFull) <==>
                && !(|batch| > 0 && old(nextIndex) > 0 && slot < old(lastUpdateSlot))
                && old(nextIndex) + |batch| > Pow2(height)
      ensures r.Ok? || r == Err(InvalidUpdateSlot) || r == Err(TreeIsFull)
      ensures r == Err(InvalidUpdateSlot) ==> Valid() && run == old(run) && Snapshot() == old(Snapshot())
      ensures r == Err(TreeIsFull) ==>
                Snapshot() == old(Snapshot()).(nextIndex := Pow2(height), subtrees := subtrees[..]) && run == old(run)
      ensures r.Ok? ==> Valid() && run == old(run) + (if |batch| == 0 then [] else [Update(slot, batch)])
      ensures r.Ok? && |batch| > 0 ==>
                calls + Popcount(old(nextIndex) + |batch| - 1) == |batch| - 1 + Popcount(old(nextIndex)) + height
    {
      hide LogOf, LeavesOf, StateOf, HistoryOf, Root, Pow2, LeftSibling, LeftSiblings, Siblings;
      hide RingHolds, Logged, Popcount, ValidRun;
      calls := 0;
      ghost var leaves, log, was := LeavesOf(run), LogOf(run), run;
      StateParts();
      var isFirstUpdate := nextIndex == 0;
      if |batch| > 0 && !isFirstUpdate && slot < lastUpdateSlot {
        return Err(InvalidUpdateSlot), calls;
      }
      RingEnds(leaves, log);
      assert leaves + batch[..0] == leaves;
      var k := 0;
      while k < |batch|
        invariant 0 <= k <= |batch|
        invariant nextIndex == |leaves| + k <= Pow2(height) && run == was && stale == old(stale)
        invariant LeftSiblings(h, leaves + batch[..k], subtrees[..])
        invariant k == 0 || k < |batch| ==>
          && RingHolds(leaves, log) && root == old(root)
          && history[..] == old(history[..]) && cursor == old(cursor) && length == old(length)
          && lastUpdateSlot == old(lastUpdateSlot)
          && calls + Popcount(|leaves| + k) == k + Popcount(|leaves|)
        invariant k == 0 ==> subtrees[..] == old(subtrees[..])
        invariant k == |batch| > 0 ==>
          && RingHolds(leaves + batch, Logged(log, isFirstUpdate, Entry(slot, |leaves + batch|)))
          && root == Root(h, leaves + batch, height) && Siblings(h, leaves + batch, subtrees[..])
          && calls + Popcount(|leaves| + k - 1) == k - 1 + Popcount(|leaves|) + height
      {
        if nextIndex >= Pow2(height) {
          return Err(TreeIsFull), calls;
        }
        var isLast := k + 1 == |batch|;
        var currentLevelHash;
        ghost var c;
        currentLevelHash, c := AppendLeaf(batch[k], isLast, leaves + batch[..k]);
        assert leaves + batch[..k] + [batch[k]] == leaves + batch[..k + 1];
        calls := calls + c;
        if isLast {
          assert batch[..k + 1] == batch;
          root := currentLevelHash;
          PushRoot(currentLevelHash, slot, isFirstUpdate, leaves, leaves + batch, log);
        }
        nextIndex := nextIndex + 1;
        k := k + 1;
      }
      r := Ok(());
      if |batch| > 0 {
        run := run + [Update(slot, batch)];
        StateAfter(was, Update(slot, batch));
      }
    }

    /** `root_by_index`. */
    method RootByIndex(index: nat) returns (r: Result<Felt, TreeError>)
      requires Valid()
      ensures var log := LogOf(run);
              if index < |log| && index < ROOT_HISTORY_CAPACITY
                 && EntryRoot(h, height, LeavesOf(run), log[NewestIn(|log|, index)]) != 0
              then r == Ok(EntryRoot(h, height, LeavesOf(run), log[NewestIn(|log|, index)]))
              else r == Err(InvalidRootIndex)
    {
      hide LogOf, LeavesOf, Root;
      assert |Snapshot().history| == ROOT_HISTORY_CAPACITY;
      if length == 0 || index >= ROOT_HISTORY_CAPACITY {
        return Err(InvalidRootIndex);
      }
      if length < ROOT_HISTORY_CAPACITY && index >= length {
        return Err(InvalidRootIndex);
      }
      var found := history[index];
      if found == 0 {
        return Err(InvalidRootIndex);
      }
      r := Ok(found);
    }
  }

  lemma {:induction false} RunExtends(run: seq<Update>, update: Update)
    requires ValidRun(run) && |update.leaves| > 0
    requires run != [] ==> LogOf(run)[|LogOf(run)| - 1].slot <= update.slot
    ensures ValidRun(run + [update])
  {
    hide LogOf;
    LogIsFinalPerSlot(run);
  }

  lemma {:induction false} HistoryLength(h: Hash2, height: nat, stale: seq<Felt>, leaves: seq<Felt>, log: seq<Entry>)
    requires |stale| == ROOT_HISTORY_CAPACITY
    ensures |HistoryOf(h, height, stale, leaves, log)| == ROOT_HISTORY_CAPACITY
  {
  }

  ghost predicate Siblings(h: Hash2, leaves: seq<Felt>, subtrees: seq<Felt>) {
    forall i :: 0 <= i < |subtrees| ==> subtrees[i] == LeftSibling(h, leaves, i)
  }

  lemma {:induction false} PathStarts(h: Hash2, leaves: seq<Felt>, leaf: Felt)
    ensures Node(h, leaves + [leaf], 0, |leaves|) == leaf && Carries(|leaves|, 0)
  {
  }

  lemma {:induction false} PathEnds(m: nat, height: nat)
    requires m < Pow2(height)
    ensures Ancestor(m, height) == 0
  {
    AncestorOfTop(m, height, height);
  }

  lemma {:induction false} ReadsSibling(h: Hash2, leaves: seq<Felt>, subtrees: seq<Felt>, i: nat)
    requires LeftSiblings(h, leaves, subtrees) && i < |subtrees| && Ancestor(|leaves|, i) % 2 == 1
    ensures subtrees[i] == Node(h, leaves, i, Ancestor(|leaves|, i) - 1)
  {
  }

  /** Stopping at level `stop`, where the new leaf's ancestor is a left child, is enough for later appends. */
  lemma {:induction false} StoppedHasSiblings(
    h: Hash2, leaves: seq<Felt>, leaf: Felt, before: seq<Felt>, stop: nat, after: seq<Felt>)
    requires LeftSiblings(h, leaves, before) && stop < |before|
    requires after == before[stop := Node(h, leaves + [leaf], stop, Ancestor(|leaves|, stop))]
    requires Ancestor(|leaves|, stop) % 2 == 0 && Carries(|leaves|, stop)
    ensures LeftSiblings(h, leaves + [leaf], after)
  {
    forall i | 0 <= i < |after| && Ancestor(|leaves| + 1, i) % 2 == 1
      ensures after[i] == Node(h, leaves + [leaf], i, Ancestor(|leaves| + 1, i) - 1)
    {
      if stop < i {
        SiblingAfterCarry(h, leaves, leaf, stop, i);
      }
    }
  }

  /** The leaf that fills the tree leaves no sibling to read. */
  lemma {:induction false} FullHasSiblings(h: Hash2, leaves: seq<Felt>, leaf: Felt, subtrees: seq<Felt>)
    requires Carries(|leaves|, |subtrees|)
    ensures LeftSiblings(h, leaves + [leaf], subtrees)
  {
  }

  // ----- What a run leaves behind.

  /** A batch and its leaves one by one, in the same slot, leave byte-identical accounts. */
  lemma {:induction false} BatchLeavesWhatSinglesLeave(
    h: Hash2, height: nat, stale: seq<Felt>, run: seq<Update>, slot: nat, batch: seq<Felt>)
    requires |stale| == ROOT_HISTORY_CAPACITY && |batch| > 0
    ensures StateOf(h, height, stale, run + Singles(slot, batch))
            == StateOf(h, height, stale, run + [Update(slot, batch)])
  {
    BatchIsOneByOne(run, slot, batch);
  }

  /** The cursor's entry is the current root. */
  lemma {:induction false} CursorHoldsRoot(h: Hash2, height: nat, stale: seq<Felt>, run: seq<Update>)
    requires |stale| == ROOT_HISTORY_CAPACITY && ValidRun(run)
    ensures var s := StateOf(h, height, stale, run); s.history[s.cursor] == s.root
  {
    hide Root, LogOf, LeavesOf;
    LogIsFinalPerSlot(run);
    CursorEntry(h, height, stale, LeavesOf(run), LogOf(run));
  }

  /** Every one of the newest `ROOT_HISTORY_CAPACITY` entries is in the ring, at its own place. */
  lemma {:induction false} RecentEntryServed(n: nat, i: nat)
    requires i < n <= i + ROOT_HISTORY_CAPACITY
    ensures i % ROOT_HISTORY_CAPACITY < n && NewestIn(n, i % ROOT_HISTORY_CAPACITY) == i
  {
    var j := i % ROOT_HISTORY_CAPACITY;
    assert i % ROOT_HISTORY_CAPACITY == NewestIn(n, j) % ROOT_HISTORY_CAPACITY;
  }

  /** A root that the ring serves is the empty tree's, or the root at the end of a slot with updates. */
  lemma {:induction false} ServedRootEndsASlot(run: seq<Update>, j: nat)
    requires ValidRun(run) && j < |LogOf(run)| && j < ROOT_HISTORY_CAPACITY
    ensures var entry := LogOf(run)[NewestIn(|LogOf(run)|, j)];
            entry == Entry(0, 0) || (entry.slot in SlotsOf(run) && entry.count == CountUpTo(run, entry.slot))
  {
    hide LogOf, CountUpTo, SlotsOf;
    LogIsFinalPerSlot(run);
    var i := NewestIn(|LogOf(run)|, j);
    if i > 0 {
      SlotIsLogged(LogOf(run), i);
    }
  }

  lemma {:induction false} SlotIsLogged(log: seq<Entry>, i: nat)
    requires 0 < i < |log|
    ensures log[i].slot in LoggedSlots(log)
  {
    if i < |log| - 1 {
      SlotIsLogged(log[..|log| - 1], i);
    }
  }

  /** The state-tree half of `check_layout`, on the fields that can vary. */
  predicate LayoutAccepted(s: State) {
    && s.cursor < ROOT_HISTORY_CAPACITY
    && 1 <= s.length <= ROOT_HISTORY_CAPACITY
    && (s.length < ROOT_HISTORY_CAPACITY ==> s.cursor + 1 == s.length)
  }

  /** Loading never refuses a tree that only `init` and appends have written. */
  lemma {:induction false} ReachableLayoutAccepted(h: Hash2, height: nat, stale: seq<Felt>, run: seq<Update>)
    requires |stale| == ROOT_HISTORY_CAPACITY
    ensures LayoutAccepted(StateOf(h, height, stale, run))
  {
    hide LogOf, LeavesOf, Root, HistoryOf, LeftSibling;
    assert |LogOf(run)| >= 1;
  }
}
