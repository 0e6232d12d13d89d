/** Ordering a finite set by a strict total order, the way ORDER BY and sort.Slice do.

    Every ordering in the system (terms by frequency, search hits by score, comments by
    date, jobs by priority) is total, so its result does not depend on the order in which
    rows or map keys are visited. */
module Ranking {

  ghost predicate StrictTotal<T(!new)>(less: (T, T) -> bool) {
    && (forall x :: !less(x, x))
    && (forall x, y :: x != y ==> less(x, y) || less(y, x))
    && (forall x, y, z :: less(x, y) && less(y, z) ==> less(x, z))
  }

  ghost predicate Sorted<T>(less: (T, T) -> bool, xs: seq<T>) {
    forall i, j | 0 <= i < j < |xs| :: less(xs[i], xs[j])
  }

  function Elements<T>(xs: seq<T>): set<T> {
    set x | x in xs
  }

  /** xs lists the set s in increasing order. */
  ghost predicate Lists<T>(less: (T, T) -> bool, xs: seq<T>, s: set<T>) {
    Sorted(less, xs) && Elements(xs) == s
  }

  function Insert<T>(less: (T, T) -> bool, x: T, xs: seq<T>): seq<T> {
    if xs == [] || less(x, xs[0]) then [x] + xs else [xs[0]] + Insert(less, x, xs[1..])
  }

  function SortSeq<T>(less: (T, T) -> bool, xs: seq<T>): seq<T> {
    if xs == [] then [] else Insert(less, xs[0], SortSeq(less, xs[1..]))
  }

  lemma {:induction false} InsertLists<T(!new)>(less: (T, T) -> bool, x: T, xs: seq<T>)
    requires StrictTotal(less) && Sorted(less, xs) && x !in xs
    ensures Lists(less, Insert(less, x, xs), Elements(xs) + {x})
  {
    if xs == [] || less(x, xs[0]) {
      assert forall j | 0 <= j < |xs| :: less(x, xs[j]);
    } else {
      InsertLists(less, x, xs[1..]);
      var tail := Insert(less, x, xs[1..]);
      assert Elements(tail) == Elements(xs[1..]) + {x};
      forall j | 0 <= j < |tail| ensures less(xs[0], tail[j]) {
        assert tail[j] in Elements(tail);
      }
      assert Elements(xs) == Elements(xs[1..]) + {xs[0]};
      assert Elements([xs[0]] + tail) == Elements(tail) + {xs[0]};
    }
  }

  ghost predicate Distinct<T>(xs: seq<T>) {
    forall i, j | 0 <= i < j < |xs| :: xs[i] != xs[j]
  }

  lemma {:induction false} SortSeqLists<T(!new)>(less: (T, T) -> bool, xs: seq<T>)
    requires StrictTotal(less) && Distinct(xs)
    ensures Lists(less, SortSeq(less, xs), Elements(xs))
  {
    if xs != [] {
      var rest := SortSeq(less, xs[1..]);
      SortSeqLists(less, xs[1..]);
      assert xs[0] !in xs[1..];
      assert xs[0] !in Elements(rest);
      InsertLists(less, xs[0], rest);
      assert Elements(xs) == Elements(xs[1..]) + {xs[0]};
    }
  }

  /** The increasing enumeration of a set. */
  ghost function Ranked<T(!new)>(less: (T, T) -> bool, s: set<T>): (xs: seq<T>)
    requires StrictTotal(less)
    ensures Lists(less, xs, s)
  {
    if s == {} then []
    else
      var x :| x in s;
      InsertLists(less, x, Ranked(less, s - {x}));
      Insert(less, x, Ranked(less, s - {x}))
  }

  /** Two increasing enumerations of the same set are equal, so neither the visiting order
      nor the sorting algorithm matters. */
  lemma {:induction false} ListsUnique<T(!new)>(less: (T, T) -> bool, xs: seq<T>, ys: seq<T>, s: set<T>)
    requires StrictTotal(less) && Lists(less, xs, s) && Lists(less, ys, s)
    ensures xs == ys
    decreases |xs|
  {
    if xs == [] {
      SortedDistinct(less, ys);
      DistinctSize(ys);
      DistinctSize(xs);
    } else {
      assert xs[0] in Elements(xs);
      assert ys != [];
      assert ys[0] in Elements(ys);
      assert xs[0] in ys && ys[0] in xs;
      assert xs[0] == ys[0] by {
        var i :| 0 <= i < |ys| && ys[i] == xs[0];
        var j :| 0 <= j < |xs| && xs[j] == ys[0];
      }
      assert Elements(xs[1..]) == s - {xs[0]};
      assert Elements(ys[1..]) == s - {xs[0]};
      ListsUnique(less, xs[1..], ys[1..], s - {xs[0]});
    }
  }

  lemma SortedIndex<T(!new)>(less: (T, T) -> bool, xs: seq<T>, i: nat, j: nat)
    requires StrictTotal(less) && Sorted(less, xs) && i < |xs| && j < |xs|
    ensures less(xs[i], xs[j]) <==> i < j
  {
    if j < i { assert less(xs[j], xs[i]); }
  }

  lemma SortedDistinct<T(!new)>(less: (T, T) -> bool, xs: seq<T>)
    requires StrictTotal(less) && Sorted(less, xs)
    ensures Distinct(xs)
  {
  }

  lemma {:induction false} DistinctSize<T>(xs: seq<T>)
    requires Distinct(xs)
    ensures |Elements(xs)| == |xs|
  {
    if xs != [] {
      DistinctSize(xs[1..]);
      assert Elements(xs) == Elements(xs[1..]) + {xs[0]};
      assert xs[0] !in Elements(xs[1..]);
    }
  }

  function Take<T>(n: nat, xs: seq<T>): seq<T> {
    if |xs| <= n then xs else xs[..n]
  }

  function Ahead<T>(less: (T, T) -> bool, s: set<T>, x: T): set<T> {
    set y | y in s && less(y, x)
  }

  /** An element is among the first n of the enumeration exactly when fewer than n elements
      of the set precede it. */
  lemma TakeIsRank<T(!new)>(less: (T, T) -> bool, xs: seq<T>, s: set<T>, n: nat, x: T)
    requires StrictTotal(less) && Lists(less, xs, s) && x in s
    ensures x in Take(n, xs) <==> |Ahead(less, s, x)| < n
  {
    assert x in Elements(xs);
    var k :| 0 <= k < |xs| && xs[k] == x;
    SortedDistinct(less, xs);
    DistinctSize(xs[..k]);
    forall y ensures y in s && less(y, x) <==> y in Elements(xs[..k]) {
      if y in s && less(y, x) {
        assert y in Elements(xs);
        var j :| 0 <= j < |xs| && xs[j] == y;
        assert j < k;
        assert xs[..k][j] == y;
      }
    }
    assert Ahead(less, s, x) == Elements(xs[..k]);
  }

  lemma {:induction false} SubsetSize<T>(a: set<T>, b: set<T>)
    requires a <= b
    ensures |a| <= |b|
  {
    if x :| x in a {
      SubsetSize(a - {x}, b - {x});
    }
  }

  lemma SameSize<T>(a: set<T>, b: set<T>)
    requires a <= b && |a| == |b|
    ensures a == b
  {
    if x :| x in b && x !in a {
      SubsetSize(a, b - {x});
    }
  }
}
