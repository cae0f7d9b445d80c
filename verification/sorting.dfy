/** `ORDER BY <column> ASC|DESC [LIMIT n]` over an in-memory row sequence.
    SQL leaves the order of rows with equal keys unspecified; the insertion
    sort below picks one admissible order, and the contracts promise only what
    SQL promises: the rows are a permutation of the input and their keys are
    monotone in the requested direction. */
module Sorting {

  /** Key `a` may come before key `b` in the requested direction. */
  predicate Precedes(a: int, b: int, desc: bool) {
    if desc then a >= b else a <= b
  }

  predicate SortedBy<T>(xs: seq<T>, key: T -> int, desc: bool) {
    forall i, j :: 0 <= i < j < |xs| ==> Precedes(key(xs[i]), key(xs[j]), desc)
  }

  /** Inserts `x` in front of the first row it may precede. */
  function InsertBy<T(==)>(x: T, xs: seq<T>, key: T -> int, desc: bool): (r: seq<T>)
    requires SortedBy(xs, key, desc)
    ensures SortedBy(r, key, desc)
    ensures multiset(r) == multiset(xs) + multiset{x}
    ensures |r| == |xs| + 1
    decreases |xs|
  {
    if |xs| == 0 || Precedes(key(x), key(xs[0]), desc) then
      [x] + xs
    else
      var tail := InsertBy(x, xs[1..], key, desc);
      assert xs == [xs[0]] + xs[1..];
      HeadPrecedes(x, xs, tail, key, desc);
      [xs[0]] + tail
  }

  /** The head of a sorted list precedes every row of the rest with `x`
      inserted, when it may precede `x` too. */
  lemma HeadPrecedes<T>(x: T, xs: seq<T>, tail: seq<T>, key: T -> int, desc: bool)
    requires |xs| > 0 && SortedBy(xs, key, desc)
    requires !Precedes(key(x), key(xs[0]), desc)
    requires multiset(tail) == multiset(xs[1..]) + multiset{x}
    ensures forall k :: 0 <= k < |tail| ==> Precedes(key(xs[0]), key(tail[k]), desc)
  {
    forall k | 0 <= k < |tail|
      ensures Precedes(key(xs[0]), key(tail[k]), desc)
    {
      assert tail[k] in multiset(tail);
      if tail[k] != x {
        assert tail[k] in multiset(xs[1..]);
        var j :| 0 <= j < |xs[1..]| && xs[1..][j] == tail[k];
        assert xs[j + 1] == tail[k];
      }
    }
  }

  /** Sorts `xs` by `key`, ascending or descending. */
  function SortBy<T(==)>(xs: seq<T>, key: T -> int, desc: bool): (r: seq<T>)
    ensures SortedBy(r, key, desc)
    ensures multiset(r) == multiset(xs)
    ensures |r| == |xs|
    decreases |xs|
  {
    if |xs| == 0 then []
    else
      assert xs == [xs[0]] + xs[1..];
      InsertBy(xs[0], SortBy(xs[1..], key, desc), key, desc)
  }

  function Min(a: int, b: int): int {
    if a <= b then a else b
  }

  /** `ORDER BY key DESC LIMIT n`: the first `n` rows of the sorted input. */
  function TopBy<T(==)>(xs: seq<T>, key: T -> int, n: nat): (r: seq<T>)
    ensures |r| == Min(n, |xs|)
    ensures SortedBy(r, key, true)
    ensures multiset(r) <= multiset(xs)
  {
    var sorted := SortBy(xs, key, true);
    var r := sorted[..Min(n, |xs|)];
    assert sorted == r + sorted[Min(n, |xs|)..];
    r
  }

  /** No row left out of `TopBy` is newer than a row it returned, and when at
      most `n` rows exist, all of them are returned. */
  lemma TopByKeepsNewest<T>(xs: seq<T>, key: T -> int, n: nat)
    ensures var r := TopBy(xs, key, n);
      forall y, z :: y in r && z in multiset(xs) - multiset(r) ==> key(z) <= key(y)
    ensures |xs| <= n ==> multiset(TopBy(xs, key, n)) == multiset(xs)
  {
    var sorted := SortBy(xs, key, true);
    var m := Min(n, |xs|);
    var r := sorted[..m];
    var rest := sorted[m..];
    assert r == TopBy(xs, key, n);
    CutMultiset(sorted, m);
    SortedSplit(sorted, key, m);
    forall y, z | y in r && z in multiset(xs) - multiset(r)
      ensures key(z) <= key(y)
    {
      assert z in multiset(rest);
    }
  }

  lemma CutMultiset<T>(s: seq<T>, m: nat)
    requires m <= |s|
    ensures multiset(s) - multiset(s[..m]) == multiset(s[m..])
    ensures m == |s| ==> multiset(s[..m]) == multiset(s)
  {
    assert s == s[..m] + s[m..];
  }

  /** In a newest-first list, nothing after a cut is newer than anything
      before it. */
  lemma SortedSplit<T>(sorted: seq<T>, key: T -> int, m: nat)
    requires SortedBy(sorted, key, true) && m <= |sorted|
    ensures forall y, z :: y in sorted[..m] && z in sorted[m..] ==> key(z) <= key(y)
  {
    forall y, z | y in sorted[..m] && z in sorted[m..]
      ensures key(z) <= key(y)
    {
      var i :| 0 <= i < m && sorted[..m][i] == y;
      var j :| 0 <= j < |sorted| - m && sorted[m..][j] == z;
      assert sorted[i] == y && sorted[m + j] == z;
      assert Precedes(key(sorted[i]), key(sorted[m + j]), true);
    }
  }

  /** A row strictly newer than every other row is the first one returned. */
  lemma TopByStartsWithNewest<T>(xs: seq<T>, key: T -> int, n: nat, x: T)
    requires n > 0 && x in xs
    requires forall y :: y in xs && y != x ==> key(y) < key(x)
    ensures |TopBy(xs, key, n)| > 0 && TopBy(xs, key, n)[0] == x
  {
    var sorted := SortBy(xs, key, true);
    assert x in multiset(sorted);
    var j :| 0 <= j < |sorted| && sorted[j] == x;
    if j > 0 {
      assert Precedes(key(sorted[0]), key(sorted[j]), true);
    }
    assert sorted[0] in multiset(xs);
    assert TopBy(xs, key, n)[0] == sorted[0];
  }
}
