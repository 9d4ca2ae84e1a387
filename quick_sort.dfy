/**
 * The quick sort exercise: Hoare-style partitioning around the last element
 * of the range, then recursion on the two sides. The slice is an array; the
 * source's `isize` bounds `low` and `high` are plain (possibly negative) ints,
 * and `high` is inclusive as in the source. Elements are ints standing in for
 * any `T: Ord`.
 */
module QuickSorting {

  /** Every pair of positions in `[lo, hi]` is in non-decreasing order. */
  ghost predicate SortedBetween(a: seq<int>, lo: int, hi: int)
  {
    forall i, j :: lo <= i < j <= hi && 0 <= i && j < |a| ==> a[i] <= a[j]
  }

  /** Every position outside `[lo, hi]` holds what it held in `old`. */
  ghost predicate SameOutside(a: seq<int>, old_: seq<int>, lo: int, hi: int)
  {
    |a| == |old_| && forall k :: 0 <= k < |a| && !(lo <= k <= hi) ==> a[k] == old_[k]
  }

  /** Two sequences with equal multisets hold the same elements. */
  lemma SameElements(s: seq<int>, t: seq<int>)
    requires multiset(s) == multiset(t)
    ensures forall x :: x in s <==> x in t
  {
    forall x
      ensures x in s <==> x in t
    {
      assert x in s <==> x in multiset(s);
      assert x in t <==> x in multiset(t);
    }
  }

  /**
   * Two arrays that agree outside `[lo, hi)` and are permutations of each
   * other are permutations of each other on `[lo, hi)` as well.
   */
  lemma {:induction false} RangePermutation(a: seq<int>, b: seq<int>, lo: int, hi: int)
    requires 0 <= lo <= hi <= |a| == |b|
    requires a[..lo] == b[..lo] && a[hi..] == b[hi..]
    requires multiset(a) == multiset(b)
    ensures multiset(a[lo..hi]) == multiset(b[lo..hi])
  {
    assert a == a[..lo] + a[lo..hi] + a[hi..];
    assert b == b[..lo] + b[lo..hi] + b[hi..];
    assert multiset(a) == multiset(a[..lo]) + multiset(a[lo..hi]) + multiset(a[hi..]);
    assert multiset(b) == multiset(b[..lo]) + multiset(b[lo..hi]) + multiset(b[hi..]);
    assert multiset(a[lo..hi]) == multiset(a) - multiset(a[..lo]) - multiset(a[hi..]);
  }

  /**
   * Rearranging `[lo, hi]` (and nothing else) keeps every entry of that
   * range within a bound that held for all of them before.
   */
  lemma {:induction false} RearrangedStaysBounded(s: seq<int>, t: seq<int>, lo: int, hi: int, b: int, upper: bool)
    requires 0 <= lo && hi < |s|
    requires SameOutside(t, s, lo, hi) && multiset(t) == multiset(s)
    requires forall k :: lo <= k <= hi ==> if upper then s[k] <= b else b <= s[k]
    ensures forall k :: lo <= k <= hi ==> if upper then t[k] <= b else b <= t[k]
  {
    if lo <= hi {
      assert t[..lo] == s[..lo];
      assert t[hi + 1..] == s[hi + 1..];
      RangePermutation(t, s, lo, hi + 1);
      SameElements(t[lo..hi + 1], s[lo..hi + 1]);
      forall k | lo <= k <= hi
        ensures if upper then t[k] <= b else b <= t[k]
      {
        assert t[k] == t[lo..hi + 1][k - lo];
        var x := t[k];
        assert x in s[lo..hi + 1];
        var m :| 0 <= m < hi + 1 - lo && s[lo..hi + 1][m] == x;
        assert s[lo + m] == x;
      }
    }
  }

  /**
   * The recursive step of `_quick_sort`: a partitioned range whose two sides
   * were then sorted in place, each leaving the rest alone, is sorted.
   */
  lemma {:induction false} SortedAfterBothSides(a1: seq<int>, a2: seq<int>, a3: seq<int>, low: int, pi: int, high: int)
    requires 0 <= low <= pi <= high < |a1|
    requires forall k :: low <= k < pi ==> a1[k] <= a1[pi]
    requires forall k :: pi < k <= high ==> a1[pi] <= a1[k]
    requires SameOutside(a2, a1, low, pi - 1) && multiset(a2) == multiset(a1)
    requires SortedBetween(a2, low, pi - 1)
    requires SameOutside(a3, a2, pi + 1, high) && multiset(a3) == multiset(a2)
    requires SortedBetween(a3, pi + 1, high)
    ensures SortedBetween(a3, low, high)
    ensures SameOutside(a3, a1, low, high) && multiset(a3) == multiset(a1)
  {
    var pv := a1[pi];
    RearrangedStaysBounded(a1, a2, low, pi - 1, pv, true);
    RearrangedStaysBounded(a2, a3, pi + 1, high, pv, false);
    assert a3[pi] == pv;
    forall i, j | low <= i < j <= high
      ensures a3[i] <= a3[j]
    {
      if j < pi {
        assert a3[i] == a2[i] && a3[j] == a2[j];
      } else if pi < i {
      } else {
        assert a3[i] <= pv <= a3[j];
      }
    }
  }

  /** `slice::swap`: exchanges two entries and nothing else. */
  method Swap(a: array<int>, i: int, j: int)
    requires 0 <= i < a.Length && 0 <= j < a.Length
    modifies a
    ensures a[i] == old(a[j]) && a[j] == old(a[i])
    ensures forall k :: 0 <= k < a.Length && k != i && k != j ==> a[k] == old(a[k])
    ensures multiset(a[..]) == old(multiset(a[..]))
  {
    a[i], a[j] := a[j], a[i];
  }

  /**
   * `partition`: the pivot is `a[high]`; `index` scans forward for an entry
   * not below the pivot, `lastIndex` scans backward (possibly below `low`,
   * guarded only by `lastIndex >= 0`) for an entry not above it, and the two
   * are swapped until they cross. The pivot then moves to `index`.
   */
  method Partition(a: array<int>, low: int, high: int) returns (p: int)
    requires 0 <= low < high < a.Length
    modifies a
    ensures low <= p <= high
    ensures a[p] == old(a[high])
    ensures forall k :: low <= k < p ==> a[k] <= a[p]
    ensures forall k :: p < k <= high ==> a[p] <= a[k]
    ensures SameOutside(a[..], old(a[..]), low, high)
    ensures multiset(a[..]) == old(multiset(a[..]))
  {
    var pivot := high;
    var index := low - 1;
    var lastIndex := high;
    ghost var pv := a[high];

    while true
      invariant low - 1 <= index < lastIndex <= high
      invariant a[high] == pv
      invariant forall k :: low <= k <= index ==> a[k] <= pv
      invariant forall k :: lastIndex <= k < high ==> pv <= a[k]
      invariant forall k :: 0 <= k < a.Length && !(low <= k <= high) ==> a[k] == old(a[k])
      invariant multiset(a[..]) == old(multiset(a[..]))
      decreases high - index
    {
      index := index + 1;
      while a[index] < a[pivot]
        invariant low <= index <= high
        invariant forall k :: low <= k < index ==> a[k] <= pv
        decreases high - index
      {
        index := index + 1;
      }

      lastIndex := lastIndex - 1;
      while lastIndex >= 0 && a[lastIndex] > a[pivot]
        invariant -1 <= lastIndex < high
        invariant forall k :: lastIndex < k < high ==> pv <= a[k]
        decreases lastIndex
      {
        lastIndex := lastIndex - 1;
      }

      if index >= lastIndex {
        break;
      }
      Swap(a, index, lastIndex);
    }

    Swap(a, index, pivot);
    p := index;
  }

  /**
   * `_quick_sort`: sorts `a[low..=high]` in place and touches nothing else;
   * with `low >= high` it returns at once.
   */
  method QuickSortRange(a: array<int>, low: int, high: int)
    requires low < high ==> 0 <= low && high < a.Length
    modifies a
    ensures low >= high ==> a[..] == old(a[..])
    ensures SameOutside(a[..], old(a[..]), low, high)
    ensures multiset(a[..]) == old(multiset(a[..]))
    ensures SortedBetween(a[..], low, high)
    decreases high - low
  {
    if low >= high {
      return;
    }
    var pi := Partition(a, low, high);
    ghost var a1 := a[..];
    QuickSortRange(a, low, pi - 1);
    ghost var a2 := a[..];
    QuickSortRange(a, pi + 1, high);
    SortedAfterBothSides(a1, a2, a[..], low, pi, high);
  }

  /**
   * `quick_sort`: sorts the whole slice. `len - 1` is computed on `usize`,
   * so an empty slice underflows (a panic in a debug build); `overflow`
   * reports that case, in which nothing is sorted.
   */
  method QuickSort(a: array<int>) returns (overflow: bool)
    modifies a
    ensures overflow <==> a.Length == 0
    ensures SortedBetween(a[..], 0, a.Length - 1)
    ensures multiset(a[..]) == old(multiset(a[..]))
  {
    if a.Length == 0 {
      return true;
    }
    QuickSortRange(a, 0, a.Length - 1);
    overflow := false;
  }
}
