/**
 * The host's `table.sort` with a "less than" comparator on a numeric key.
 * The host sort is not stable, so clients rely only on what every correct
 * sort delivers: the result is ordered by the key and is a permutation of
 * the input.  An insertion sort stands in for it.
 */
module Sorting {

  /** `s` is in ascending order of `key`. */
  predicate SortedBy<T>(s: seq<T>, key: T -> real) {
    forall i, j :: 0 <= i < j < |s| ==> key(s[i]) <= key(s[j])
  }

  /** Inserts `x` into the sorted `s` in front of the first element not below it. */
  function Insert<T>(x: T, s: seq<T>, key: T -> real): (r: seq<T>)
    requires SortedBy(s, key)
    ensures |r| == |s| + 1
    ensures multiset(r) == multiset(s) + multiset{x}
    ensures SortedBy(r, key)
  {
    if s == [] then [x]
    else if key(x) <= key(s[0]) then [x] + s
    else
      var rest := Insert(x, s[1..], key);
      ConsSorted(s[0], s[1..], x, rest, key);
      assert s == [s[0]] + s[1..];
      [s[0]] + rest
  }

  /** Putting `h` in front of a sorted permutation of `t + [x]` keeps it sorted when `h` is least. */
  lemma ConsSorted<T>(h: T, t: seq<T>, x: T, rest: seq<T>, key: T -> real)
    requires SortedBy([h] + t, key) && SortedBy(rest, key)
    requires key(h) <= key(x)
    requires multiset(rest) == multiset(t) + multiset{x}
    ensures SortedBy([h] + rest, key)
  {
    forall y | y in rest
      ensures key(h) <= key(y)
    {
      assert y in multiset(rest);
      if y != x {
        assert y in multiset(t);
        var j :| 0 <= j < |t| && t[j] == y;
        var ht := [h] + t;
        assert ht[0] == h && ht[j + 1] == y;
        assert key(ht[0]) <= key(ht[j + 1]);
      }
    }
    var r := [h] + rest;
    forall i, j | 0 <= i < j < |r|
      ensures key(r[i]) <= key(r[j])
    {
      if i == 0 {
        assert r[j] == rest[j - 1];
        assert rest[j - 1] in rest;
      } else {
        assert r[i] == rest[i - 1] && r[j] == rest[j - 1];
      }
    }
  }

  /** An ordering of `s` by ascending `key`. */
  function SortBy<T>(s: seq<T>, key: T -> real): (r: seq<T>)
    ensures |r| == |s|
    ensures multiset(r) == multiset(s)
    ensures SortedBy(r, key)
  {
    if s == [] then []
    else
      assert s == [s[0]] + s[1..];
      Insert(s[0], SortBy(s[1..], key), key)
  }
}
