/** Lists without repeats, and the sizes of finite sets. */
module Collections {
  ghost predicate Distinct<T(!new)>(xs: seq<T>) {
    forall i, j :: 0 <= i < j < |xs| ==> xs[i] != xs[j]
  }

  ghost function ToSet<T(!new)>(xs: seq<T>): set<T> {
    set x | x in xs
  }

  lemma {:induction false} InToSet<T(!new)>(xs: seq<T>)
    ensures forall x :: x in ToSet(xs) <==> x in xs
  {
  }

  lemma {:induction false} SubsetSize<T>(a: set<T>, b: set<T>)
    requires a <= b
    ensures |a| <= |b|
  {
    if x :| x in a {
      SubsetSize(a - {x}, b - {x});
    }
  }

  /** A list has at least as many places as values, and as many exactly when it has no repeats. */
  lemma {:induction false} ToSetSize<T(!new)>(xs: seq<T>)
    ensures |ToSet(xs)| <= |xs| && (Distinct(xs) ==> |ToSet(xs)| == |xs|)
  {
    if |xs| > 0 {
      var front, last := xs[..|xs| - 1], xs[|xs| - 1];
      ToSetSize(front);
      assert xs == front + [last];
      assert ToSet(xs) == ToSet(front) + {last};
    }
  }
}
