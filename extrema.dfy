/** Extrema detection as scipy's `argrelextrema(signal, np.greater)` and
    `argrelextrema(signal, np.less)` with order 1 and the default 'clip'
    mode: an endpoint is compared with itself, so it is never an extremum. */
module Extrema {
  import opened Sorting

  /** k is a strict local maximum: both neighbours exist and are smaller. */
  predicate IsMaximum(s: seq<real>, k: int)
  {
    0 < k < |s| - 1 && s[k] > s[k - 1] && s[k] > s[k + 1]
  }

  /** k is a strict local minimum: both neighbours exist and are larger. */
  predicate IsMinimum(s: seq<real>, k: int)
  {
    0 < k < |s| - 1 && s[k] < s[k - 1] && s[k] < s[k + 1]
  }

  /** The indices j in [lo, hi) with p(j), ascending (as `np.nonzero` lists them). */
  function IndicesWhere(lo: int, hi: int, p: int -> bool): (r: seq<int>)
    ensures forall j :: j in r <==> lo <= j < hi && p(j)
    ensures StrictlyIncreasing(r)
    decreases hi - lo
  {
    if lo >= hi then []
    else
      var rest := IndicesWhere(lo + 1, hi, p);
      assert forall i :: 0 <= i < |rest| ==> rest[i] in rest;
      (if p(lo) then [lo] else []) + rest
  }

  function Maxima(s: seq<real>): seq<int>
  {
    IndicesWhere(0, |s|, k => IsMaximum(s, k))
  }

  function Minima(s: seq<real>): seq<int>
  {
    IndicesWhere(0, |s|, k => IsMinimum(s, k))
  }

  /** Listing the indices for two disjoint predicates gives, as a multiset,
      the listing for their union. */
  lemma {:induction false} DisjointIndices(lo: int, hi: int, p: int -> bool, q: int -> bool, u: int -> bool)
    requires forall j :: !(p(j) && q(j))
    requires forall j :: u(j) == (p(j) || q(j))
    ensures multiset(IndicesWhere(lo, hi, p)) + multiset(IndicesWhere(lo, hi, q))
            == multiset(IndicesWhere(lo, hi, u))
    decreases hi - lo
  {
    if lo < hi {
      DisjointIndices(lo + 1, hi, p, q, u);
    }
  }

  /** `identify_extrema`: np.sort of the maxima followed by the minima, and
      the maxima alone. */
  function IdentifyExtrema(s: seq<real>): (seq<int>, seq<int>)
  {
    var maxima := Maxima(s);
    (Sort(maxima + Minima(s)), maxima)
  }

  /** k is an interior strict extremum of either kind. */
  function ExtremumAt(s: seq<real>): int -> bool
  {
    k => IsMaximum(s, k) || IsMinimum(s, k)
  }

  /** The sorted concatenation of maxima and minima is the ascending listing
      of all extrema. */
  lemma SortedExtremaListing(s: seq<real>)
    ensures IdentifyExtrema(s).0 == IndicesWhere(0, |s|, ExtremumAt(s))
  {
    var union := IndicesWhere(0, |s|, ExtremumAt(s));
    DisjointIndices(0, |s|, k => IsMaximum(s, k), k => IsMinimum(s, k), ExtremumAt(s));
    StrictlyIncreasingIsSorted(union);
    SortedUnique(IdentifyExtrema(s).0, union);
  }

  /** The first result of `identify_extrema` is strictly increasing and holds
      exactly the interior strict extrema; the second holds exactly the
      maxima, ascending, and so lies within the first. Endpoints and plateau
      points are never returned. */
  lemma IdentifyExtremaSpec(s: seq<real>)
    ensures var r := IdentifyExtrema(s);
      StrictlyIncreasing(r.0) && StrictlyIncreasing(r.1) &&
      (forall k :: k in r.0 <==> IsMaximum(s, k) || IsMinimum(s, k)) &&
      (forall k :: k in r.1 <==> IsMaximum(s, k)) &&
      (forall k :: k in r.0 ==> 0 < k < |s| - 1)
  {
    SortedExtremaListing(s);
    var all := IdentifyExtrema(s).0;
    assert forall k :: k in all <==> 0 <= k < |s| && ExtremumAt(s)(k);
  }

  /** On [0, 1, 0, 1, 0] the maxima are positions 1 and 3, and all extrema
      add the interior minimum at 2; the endpoints are excluded. */
  lemma ExtremaExample()
    ensures var r := IdentifyExtrema([0.0, 1.0, 0.0, 1.0, 0.0]);
      (forall k :: k in r.1 <==> k == 1 || k == 3) &&
      (forall k :: k in r.0 <==> 1 <= k <= 3)
  {
    var s := [0.0, 1.0, 0.0, 1.0, 0.0];
    IdentifyExtremaSpec(s);
    forall k ensures IsMaximum(s, k) <==> k == 1 || k == 3 {
      if 0 < k < 4 {
        assert k == 1 || k == 2 || k == 3;
      }
    }
    forall k ensures IsMinimum(s, k) <==> k == 2 {
      if 0 < k < 4 {
        assert k == 1 || k == 2 || k == 3;
      }
    }
  }
}
