/**
 * Snapping helpers: `getSortedDistances` and `getNearestDistance`.
 * Positions and distances are exact reals.
 */
module Distances {
  import opened Common
  import Sorting

  /** One computed entry: an other position and its distance to the static one. */
  datatype DistanceResult = DistanceResult(position: real, distance: real)

  /** `math.abs` */
  function Abs(x: real): (r: real)
    ensures 0.0 <= r && (r == x || r == -x)
  {
    if x < 0.0 then -x else x
  }

  /** The sort key of the distance sort. */
  function DistanceOf(d: DistanceResult): real {
    d.distance
  }

  /** The entries pushed for `others`, in push order. */
  function Entries(staticPosition: real, others: seq<real>): (r: seq<DistanceResult>)
    ensures |r| == |others|
    ensures forall i :: 0 <= i < |r| ==>
              r[i].position == others[i] && r[i].distance == Abs(others[i] - staticPosition)
  {
    if others == [] then []
    else
      var last := others[|others| - 1];
      Entries(staticPosition, others[..|others| - 1]) + [DistanceResult(last, Abs(last - staticPosition))]
  }

  /** What `getSortedDistances` returns: the entries in ascending order of distance. */
  function SortedDistances(staticPosition: real, others: seq<real>): seq<DistanceResult> {
    Sorting.SortBy(Entries(staticPosition, others), DistanceOf)
  }

  /** Computes one entry per other position, then sorts them by ascending distance. */
  method GetSortedDistances(staticPosition: real, others: seq<real>) returns (sorted: seq<DistanceResult>)
    ensures |sorted| == |others|
    ensures multiset(sorted) == multiset(Entries(staticPosition, others))
    ensures Sorting.SortedBy(sorted, DistanceOf)
    ensures forall k :: 0 <= k < |sorted| ==>
              sorted[k].position in others && 0.0 <= sorted[k].distance
              && sorted[k].distance == Abs(sorted[k].position - staticPosition)
    ensures sorted == SortedDistances(staticPosition, others)
  {
    var distances: seq<DistanceResult> := [];
    var i := 0;
    while i < |others|
      invariant 0 <= i <= |others|
      invariant distances == Entries(staticPosition, others[..i])
    {
      EntriesPrefix(staticPosition, others, i);
      distances := distances + [DistanceResult(others[i], Abs(others[i] - staticPosition))];
      i := i + 1;
    }
    assert others[..i] == others;
    sorted := Sorting.SortBy(distances, DistanceOf);
    SortedDistancesFacts(staticPosition, others);
  }

  /** The sorted distances are a sorted permutation of the entries, one per other position. */
  lemma SortedDistancesFacts(staticPosition: real, others: seq<real>)
    ensures var sorted := SortedDistances(staticPosition, others);
            |sorted| == |others|
            && multiset(sorted) == multiset(Entries(staticPosition, others))
            && Sorting.SortedBy(sorted, DistanceOf)
            && forall k :: 0 <= k < |sorted| ==>
                 sorted[k].position in others && 0.0 <= sorted[k].distance
                 && sorted[k].distance == Abs(sorted[k].position - staticPosition)
  {
    var sorted := SortedDistances(staticPosition, others);
    assert multiset(sorted) == multiset(Entries(staticPosition, others));
    assert |sorted| == |multiset(sorted)|;
    EntriesOfSorted(staticPosition, others, sorted);
  }

  /** The entries of one more position of a list end with that position's entry. */
  lemma EntriesPrefix(staticPosition: real, others: seq<real>, i: nat)
    requires i < |others|
    ensures Entries(staticPosition, others[..i + 1])
            == Entries(staticPosition, others[..i]) + [DistanceResult(others[i], Abs(others[i] - staticPosition))]
  {
    assert others[..i + 1][..i] == others[..i];
  }

  /** Every element of a permutation of the entries is one of the entries. */
  lemma EntriesOfSorted(staticPosition: real, others: seq<real>, sorted: seq<DistanceResult>)
    requires multiset(sorted) == multiset(Entries(staticPosition, others))
    ensures forall k :: 0 <= k < |sorted| ==>
              sorted[k].position in others && 0.0 <= sorted[k].distance
              && sorted[k].distance == Abs(sorted[k].position - staticPosition)
  {
    var es := Entries(staticPosition, others);
    forall k | 0 <= k < |sorted|
      ensures sorted[k].position in others && 0.0 <= sorted[k].distance
              && sorted[k].distance == Abs(sorted[k].position - staticPosition)
    {
      assert sorted[k] in multiset(es);
      var i :| 0 <= i < |es| && es[i] == sorted[k];
    }
  }

  /**
   * `getNearestDistance`: the first entry of the sorted distances, or
   * `undefined` (None) when there are no other positions.
   */
  function GetNearestDistance(staticPosition: real, others: seq<real>): (r: Option<DistanceResult>)
    ensures r.None? <==> others == []
    ensures r.Some? ==> r.value.position in others
    ensures r.Some? ==> r.value.distance == Abs(r.value.position - staticPosition)
    ensures r.Some? ==> forall p :: p in others ==> r.value.distance <= Abs(p - staticPosition)
  {
    var sorted := SortedDistances(staticPosition, others);
    if |sorted| == 0 then None
    else
      NearestIsFirst(staticPosition, others);
      Some(sorted[0])
  }

  /** The head of the sorted distances is an entry no farther than any other position. */
  lemma NearestIsFirst(staticPosition: real, others: seq<real>)
    requires others != []
    ensures var s := SortedDistances(staticPosition, others);
            |s| == |others| && s[0].position in others
            && s[0].distance == Abs(s[0].position - staticPosition)
            && forall p :: p in others ==> s[0].distance <= Abs(p - staticPosition)
  {
    var s := SortedDistances(staticPosition, others);
    var es := Entries(staticPosition, others);
    assert multiset(s) == multiset(es) && Sorting.SortedBy(s, DistanceOf);
    EntriesOfSorted(staticPosition, others, s);
    forall p | p in others
      ensures s[0].distance <= Abs(p - staticPosition)
    {
      var j :| 0 <= j < |others| && others[j] == p;
      HeadIsLeast(s, es, j);
    }
  }

  /** In a sorted permutation of `es`, the head is no farther than `es[j]`. */
  lemma HeadIsLeast(s: seq<DistanceResult>, es: seq<DistanceResult>, j: nat)
    requires multiset(s) == multiset(es) && Sorting.SortedBy(s, DistanceOf)
    requires j < |es|
    ensures |s| > 0 && s[0].distance <= es[j].distance
  {
    assert es[j] in multiset(es);
    assert es[j] in s;
    var k :| 0 <= k < |s| && s[k] == es[j];
    if k > 0 {
      assert DistanceOf(s[0]) <= DistanceOf(s[k]);
    }
  }
}
