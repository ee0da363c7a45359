/** Sorting of integer index and frame sequences: the ascending sort behind
    `np.sort` and the descending order of `sort_values(ascending=False)`. */
module Sorting {

  predicate Sorted(s: seq<int>)
  {
    forall i, j :: 0 <= i < j < |s| ==> s[i] <= s[j]
  }

  predicate StrictlyIncreasing(s: seq<int>)
  {
    forall i, j :: 0 <= i < j < |s| ==> s[i] < s[j]
  }

  predicate SortedDescending(s: seq<int>)
  {
    forall i, j :: 0 <= i < j < |s| ==> s[i] >= s[j]
  }

  /** Insertion of x before the first element not smaller than it. */
  function Insert(x: int, s: seq<int>): (r: seq<int>)
    ensures |r| == |s| + 1
    decreases |s|
  {
    if s == [] then [x]
    else if x <= s[0] then [x] + s
    else [s[0]] + Insert(x, s[1..])
  }

  /** Inserting into a sorted sequence keeps it sorted and adds exactly x;
      the new head is x or the old head. */
  lemma {:induction false} InsertSorted(x: int, s: seq<int>)
    requires Sorted(s)
    ensures Sorted(Insert(x, s))
    ensures multiset(Insert(x, s)) == multiset(s) + multiset{x}
    ensures Insert(x, s)[0] == x || (|s| > 0 && Insert(x, s)[0] == s[0])
    decreases |s|
  {
    if s == [] {
      assert Insert(x, s) == [x];
    } else if x <= s[0] {
      assert Insert(x, s) == [x] + s;
      ConsSorted(x, s);
    } else {
      var rest := Insert(x, s[1..]);
      assert Insert(x, s) == [s[0]] + rest;
      InsertSorted(x, s[1..]);
      ConsSorted(s[0], rest);
      assert s == [s[0]] + s[1..];
    }
  }

  lemma ConsSorted(h: int, s: seq<int>)
    requires Sorted(s) && |s| > 0 && h <= s[0]
    ensures Sorted([h] + s)
  {
  }

  /** An ascending sort; it returns a sorted permutation of its input. */
  function Sort(s: seq<int>): (r: seq<int>)
    ensures Sorted(r)
    ensures multiset(r) == multiset(s)
    decreases |s|
  {
    if s == [] then []
    else
      var t := Sort(s[1..]);
      InsertSorted(s[0], t);
      HeadTailMultiset(s);
      Insert(s[0], t)
  }

  /** A sorted permutation is unique: two sorted sequences holding the same
      multiset of values are equal. */
  lemma {:induction false} SortedUnique(a: seq<int>, b: seq<int>)
    requires Sorted(a) && Sorted(b)
    requires multiset(a) == multiset(b)
    ensures a == b
    decreases |a|
  {
    assert |a| == |multiset(a)| == |multiset(b)| == |b|;
    if a != [] {
      HeadIsLeast(a, b);
      HeadIsLeast(b, a);
      TailMultiset(a);
      TailMultiset(b);
      SortedUnique(a[1..], b[1..]);
      assert a == [a[0]] + a[1..] == [b[0]] + b[1..] == b;
    }
  }

  lemma HeadTailMultiset(s: seq<int>)
    requires |s| > 0
    ensures multiset(s) == multiset{s[0]} + multiset(s[1..])
  {
    assert s == [s[0]] + s[1..];
  }

  lemma TailMultiset(s: seq<int>)
    requires |s| > 0
    ensures multiset(s[1..]) == multiset(s) - multiset{s[0]}
    ensures Sorted(s) ==> Sorted(s[1..])
  {
    assert s == [s[0]] + s[1..];
  }

  /** The head of a sorted sequence is at most any of its elements, and at
      most anything whose multiset holds the head. */
  lemma HeadIsLeast(s: seq<int>, t: seq<int>)
    requires Sorted(s) && |s| > 0 && |t| > 0 && multiset(s) == multiset(t)
    ensures s[0] <= t[0]
  {
    assert t[0] in multiset(t);
    var i :| 0 <= i < |s| && s[i] == t[0];
  }

  lemma StrictlyIncreasingIsSorted(s: seq<int>)
    requires StrictlyIncreasing(s)
    ensures Sorted(s)
  {
  }

  function Reverse(s: seq<int>): (r: seq<int>)
    ensures |r| == |s|
    ensures forall i :: 0 <= i < |s| ==> r[i] == s[|s| - 1 - i]
    decreases |s|
  {
    if s == [] then [] else Reverse(s[1..]) + [s[0]]
  }

  lemma {:induction false} ReverseMultiset(s: seq<int>)
    ensures multiset(Reverse(s)) == multiset(s)
    decreases |s|
  {
    if s != [] {
      ReverseMultiset(s[1..]);
      assert s == [s[0]] + s[1..];
    }
  }

  /** Descending order of integer keys: the ascending sort read backwards.
      Equal keys are indistinguishable integers, so stability does not matter. */
  function SortDescending(s: seq<int>): (r: seq<int>)
    ensures SortedDescending(r)
    ensures multiset(r) == multiset(s)
  {
    ReverseMultiset(Sort(s));
    Reverse(Sort(s))
  }
}
