/**
  The newest-first orderings used by the listings: `Array.prototype.sort`
  with a comparator on an optional timestamp, where a record with a timestamp
  comes before one without, and a later timestamp before an earlier one.
 */
module Sorting {
  import opened Types

  /** `a` may be listed before `b`. */
  predicate NewerOrEqual(a: Option<int>, b: Option<int>) {
    match a
    case Some(x) => b.None? || x >= b.value
    case None => b.None?
  }

  /** Every element may be listed before every later one. */
  predicate NewestFirst<T>(xs: seq<T>, key: T -> Option<int>) {
    forall i, j :: 0 <= i < j < |xs| ==> NewerOrEqual(key(xs[i]), key(xs[j]))
  }

  /** Totality: of two keys, one is newer or equal. */
  lemma NewerOrEqualTotal(a: Option<int>, b: Option<int>)
    ensures NewerOrEqual(a, b) || NewerOrEqual(b, a)
  {
  }

  /** Prepending an element newer than all others keeps the order. */
  lemma ConsNewestFirst<T>(y: T, ys: seq<T>, key: T -> Option<int>)
    requires NewestFirst(ys, key)
    requires forall z :: z in ys ==> NewerOrEqual(key(y), key(z))
    ensures NewestFirst([y] + ys, key)
  {
    var r := [y] + ys;
    forall i, j | 0 <= i < j < |r| ensures NewerOrEqual(key(r[i]), key(r[j])) {
      if i == 0 {
        assert r[j] == ys[j - 1];
      } else {
        assert r[i] == ys[i - 1] && r[j] == ys[j - 1];
      }
    }
  }

  /** Inserts `x` after the elements at least as new as it. */
  function Insert<T>(x: T, xs: seq<T>, key: T -> Option<int>): (r: seq<T>)
    requires NewestFirst(xs, key)
    ensures NewestFirst(r, key)
    ensures multiset(r) == multiset(xs) + multiset{x}
    ensures forall y :: y in r ==> y == x || y in xs
  {
    if xs == [] then [x]
    else if NewerOrEqual(key(x), key(xs[0])) then
      ConsNewestFirst(x, xs, key);
      [x] + xs
    else
      var rest := Insert(x, xs[1..], key);
      assert xs == [xs[0]] + xs[1..];
      NewerOrEqualTotal(key(x), key(xs[0]));
      forall z | z in rest ensures NewerOrEqual(key(xs[0]), key(z)) {
        if z != x {
          var j :| 0 <= j < |xs[1..]| && xs[1..][j] == z;
          assert xs[j + 1] == z;
        }
      }
      ConsNewestFirst(xs[0], rest, key);
      [xs[0]] + rest
  }

  /** A stable insertion sort, newest first. */
  function SortNewestFirst<T>(xs: seq<T>, key: T -> Option<int>): (r: seq<T>)
    ensures NewestFirst(r, key)
    ensures multiset(r) == multiset(xs)
  {
    if xs == [] then []
    else
      assert xs == [xs[0]] + xs[1..];
      Insert(xs[0], SortNewestFirst(xs[1..], key), key)
  }

  /** The head of a newest-first list is at least as new as every element. */
  lemma HeadIsNewest<T>(xs: seq<T>, key: T -> Option<int>, y: T)
    requires NewestFirst(xs, key) && y in xs
    ensures NewerOrEqual(key(xs[0]), key(y))
  {
    var j :| 0 <= j < |xs| && xs[j] == y;
    if j > 0 {
      assert NewerOrEqual(key(xs[0]), key(xs[j]));
    } else {
      match key(y)
      case Some(v) =>
      case None =>
    }
  }
}
