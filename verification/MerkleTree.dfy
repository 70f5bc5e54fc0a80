/** The reference for the append-only tree of program-libs/tree/src/smt.rs: the Merkle tree over a leaf
list padded with zero leaves, and the path arithmetic that the incremental form relies on. */
module MerkleTree {
  import opened Bits
  import opened Field

  /** `zero_bytes[level]`, the root of an empty subtree. */
  function Zero(h: Hash2, level: nat): Felt {
    if level == 0 then 0 else h(Zero(h, level - 1), Zero(h, level - 1))
  }

  /** Node `index` of `level` over `leaves` followed by zero leaves. */
  function Node(h: Hash2, leaves: seq<Felt>, level: nat, index: nat): Felt {
    if level == 0 then (if index < |leaves| then leaves[index] else 0)
    else h(Node(h, leaves, level - 1, 2 * index), Node(h, leaves, level - 1, 2 * index + 1))
  }

  function Root(h: Hash2, leaves: seq<Felt>, height: nat): Felt {
    Node(h, leaves, height, 0)
  }

  /** Index of the level-`level` ancestor of leaf `m`. */
  function Ancestor(m: nat, level: nat): nat {
    if level == 0 then m else Ancestor(m, level - 1) / 2
  }

  /** Below the root of a tree that holds leaf `m` there is only node 0. */
  lemma {:induction false} AncestorOfTop(m: nat, level: nat, height: nat)
    requires level <= height && m < Pow2(height)
    ensures Ancestor(m, level) < Pow2(height - level)
  {
    if level > 0 {
      AncestorOfTop(m, level - 1, height);
    }
  }

  /** A node with only zero leaves below it. */
  lemma {:induction false} EmptyNode(h: Hash2, leaves: seq<Felt>, level: nat, index: nat)
    requires |leaves| == 0 || index > Ancestor(|leaves| - 1, level)
    ensures Node(h, leaves, level, index) == Zero(h, level)
  {
    if level > 0 {
      EmptyNode(h, leaves, level - 1, 2 * index);
      EmptyNode(h, leaves, level - 1, 2 * index + 1);
    }
  }

  /** A node left of leaf `m`'s ancestor depends on the leaves before `m` alone. */
  lemma {:induction false} CompleteNode(h: Hash2, a: seq<Felt>, b: seq<Felt>, m: nat, level: nat, index: nat)
    requires m <= |a| && m <= |b| && a[..m] == b[..m] && index < Ancestor(m, level)
    ensures Node(h, a, level, index) == Node(h, b, level, index)
  {
    if level == 0 {
      assert a[..m][index] == b[..m][index];
    } else {
      CompleteNode(h, a, b, m, level - 1, 2 * index);
      CompleteNode(h, a, b, m, level - 1, 2 * index + 1);
    }
  }

  /** Ancestors of neighbouring leaves are equal or neighbours. */
  lemma {:induction false} AncestorOfNext(m: nat, level: nat)
    ensures Ancestor(m, level) <= Ancestor(m + 1, level) <= Ancestor(m, level) + 1
  {
    if level > 0 {
      AncestorOfNext(m, level - 1);
    }
  }

  lemma {:induction false} AncestorsStayEqual(a: nat, b: nat, from: nat, level: nat)
    requires from <= level && Ancestor(a, from) == Ancestor(b, from)
    ensures Ancestor(a, level) == Ancestor(b, level)
  {
    if from < level {
      AncestorsStayEqual(a, b, from, level - 1);
    }
  }

  /** Dropping the leaves before a node's neighbour renumbers the nodes of its level. */
  lemma {:induction false} NodeShift(h: Hash2, leaves: seq<Felt>, level: nat, off: nat, index: nat)
    requires Shl(off, level) <= |leaves|
    ensures Node(h, leaves, level, off + index) == Node(h, leaves[Shl(off, level)..], level, index)
    decreases level
  {
    if level > 0 {
      ShlAdd(off, 1, level - 1);
      assert Shl(off, 1) == 2 * off;
      NodeShift(h, leaves, level - 1, 2 * off, 2 * index);
      NodeShift(h, leaves, level - 1, 2 * off, 2 * index + 1);
    }
  }

  lemma {:induction false} PowIsShl(n: nat)
    ensures Pow2(n) == Shl(1, n) && Ancestor(Pow2(n), n) == 1
  {
    if n > 0 {
      PowIsShl(n - 1);
      AncestorOfDouble(Pow2(n - 1), n - 1);
    }
  }

  lemma {:induction false} AncestorOfDouble(m: nat, level: nat)
    ensures Ancestor(2 * m, level + 1) == Ancestor(m, level)
  {
    if level > 0 {
      AncestorOfDouble(m, level - 1);
    }
  }

  /** The root is the hash of the root over the first half of the leaves with that over the rest. */
  lemma {:induction false} RootSplits(h: Hash2, leaves: seq<Felt>, n: nat, x: Felt)
    ensures Root(h, [], 0) == 0 && Root(h, [x], 0) == x
    ensures |leaves| >= Pow2(n) ==>
              Root(h, leaves, n + 1) == h(Root(h, leaves[..Pow2(n)], n), Root(h, leaves[Pow2(n)..], n))
    ensures |leaves| <= Pow2(n) ==> Root(h, leaves, n + 1) == h(Root(h, leaves, n), Root(h, [], n))
  {
    PowIsShl(n);
    if |leaves| >= Pow2(n) {
      CompleteNode(h, leaves, leaves[..Pow2(n)], Pow2(n), n, 0);
      NodeShift(h, leaves, n, 1, 0);
    }
    if |leaves| <= Pow2(n) {
      if |leaves| > 0 {
        AncestorOfTop(|leaves| - 1, n, n);
      }
      EmptyNode(h, leaves, n, 1);
      EmptyNode(h, [], n, 0);
    }
  }

  /** What slot `level` of the left siblings holds after an update: the even one of the last leaf's
      ancestor and its sibling. */
  function LeftSibling(h: Hash2, leaves: seq<Felt>, level: nat): Felt {
    Node(h, leaves, level, if |leaves| == 0 then 0 else Ancestor(|leaves| - 1, level) / 2 * 2)
  }

  // ----- One append: `leaves` gets a new last leaf, and `level` is a level of its path.

  /** An ancestor that is a left child is hashed with the root of an empty subtree. */
  lemma {:induction false} LeftChildStep(h: Hash2, leaves: seq<Felt>, level: nat)
    requires |leaves| > 0 && Ancestor(|leaves| - 1, level) % 2 == 0
    ensures var last := |leaves| - 1;
            && Node(h, leaves, level + 1, Ancestor(last, level + 1))
               == h(Node(h, leaves, level, Ancestor(last, level)), Zero(h, level))
            && LeftSibling(h, leaves, level) == Node(h, leaves, level, Ancestor(last, level))
  {
    EmptyNode(h, leaves, level, Ancestor(|leaves| - 1, level) + 1);
  }

  /** An ancestor that is a right child is hashed with a sibling that was complete before the append. */
  lemma {:induction false} RightChildStep(h: Hash2, leaves: seq<Felt>, leaf: Felt, level: nat)
    requires Ancestor(|leaves|, level) % 2 == 1
    ensures var m, all := |leaves|, leaves + [leaf];
            && Node(h, all, level + 1, Ancestor(m, level + 1))
               == h(Node(h, leaves, level, Ancestor(m, level) - 1), Node(h, all, level, Ancestor(m, level)))
            && LeftSibling(h, all, level) == Node(h, leaves, level, Ancestor(m, level) - 1)
  {
    CompleteNode(h, leaves, leaves + [leaf], |leaves|, level, Ancestor(|leaves|, level) - 1);
  }

  /** Below level `i` leaf `m` is always a right child: adding one to `m` carries to bit `i`. */
  ghost predicate Carries(m: nat, i: nat) {
    && Ancestor(m + 1, i) == Ancestor(m, i) + 1 && LeftBelow(m + 1, i)
    && Popcount(m) == i + Popcount(Ancestor(m, i)) && Popcount(m + 1) == Popcount(Ancestor(m, i) + 1)
  }

  ghost predicate LeftBelow(m: nat, i: nat) {
    forall j :: 0 <= j < i ==> Ancestor(m, j) % 2 == 0
  }

  lemma {:induction false} CarryStep(m: nat, i: nat)
    requires Carries(m, i) && Ancestor(m, i) % 2 == 1
    ensures Carries(m, i + 1)
  {
    assert Ancestor(m + 1, i) % 2 == 0;
  }

  /** A carry that stops at level `i` clears `i` bits and sets one. */
  lemma {:induction false} CarryStops(m: nat, i: nat)
    requires Carries(m, i) && Ancestor(m, i) % 2 == 0
    ensures i + Popcount(m + 1) == Popcount(m) + 1
  {
    assert (Ancestor(m, i) + 1) / 2 == Ancestor(m, i) / 2;
  }

  /** An append that stops at its first left child leaves every sibling that later appends read. */
  lemma {:induction false} SiblingAfterCarry(h: Hash2, leaves: seq<Felt>, leaf: Felt, stop: nat, level: nat)
    requires stop < level && Ancestor(|leaves|, stop) % 2 == 0 && Carries(|leaves|, stop)
    requires Ancestor(|leaves| + 1, level) % 2 == 1
    ensures Ancestor(|leaves| + 1, level) == Ancestor(|leaves|, level)
    ensures Node(h, leaves + [leaf], level, Ancestor(|leaves|, level) - 1)
            == Node(h, leaves, level, Ancestor(|leaves|, level) - 1)
  {
    hide Popcount, LeftBelow, Node;
    assert Ancestor(|leaves| + 1, stop + 1) == Ancestor(|leaves|, stop + 1);
    AncestorsStayEqual(|leaves| + 1, |leaves|, stop + 1, level);
    CompleteNode(h, leaves, leaves + [leaf], |leaves|, level, Ancestor(|leaves|, level) - 1);
  }
}
