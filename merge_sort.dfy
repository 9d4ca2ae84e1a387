/**
 * The merge sort exercise. `merge` weaves two slices into a third and then
 * copies whatever is left of one input; `merge_sort` sorts both halves of a
 * slice in place, merges them into a copy and copies the copy back. Slices
 * of the one array are index ranges `[lo, hi)`; the two read-only inputs of
 * `merge` are sequences. Elements are ints standing in for any `T: Ord`.
 */
module MergeSorting {
  import opened Outcomes

  ghost predicate Sorted(s: seq<int>)
  {
    forall i, j :: 0 <= i < j < |s| ==> s[i] <= s[j]
  }

  /**
   * The merge the loop of `merge` performs when run to the end of both
   * inputs: the head of `a1` is taken only when strictly smaller, so ties
   * take from `a2`.
   */
  function Merged(a1: seq<int>, a2: seq<int>): (r: seq<int>)
    ensures |r| == |a1| + |a2|
    decreases |a1| + |a2|
  {
    if |a1| == 0 then a2
    else if |a2| == 0 then a1
    else if a1[0] < a2[0] then [a1[0]] + Merged(a1[1..], a2)
    else [a2[0]] + Merged(a1, a2[1..])
  }

  lemma {:induction false} MergedPermutation(a1: seq<int>, a2: seq<int>)
    ensures multiset(Merged(a1, a2)) == multiset(a1) + multiset(a2)
    decreases |a1| + |a2|
  {
    if |a1| == 0 {
      assert a1 == [];
    } else if |a2| == 0 {
      assert a2 == [];
    } else if a1[0] < a2[0] {
      var t := a1[1..];
      MergedPermutation(t, a2);
      ConsPermutation(a1[0], Merged(t, a2), t, a2);
      assert a1 == [a1[0]] + t;
    } else {
      var t := a2[1..];
      MergedPermutation(a1, t);
      ConsPermutation(a2[0], Merged(a1, t), t, a1);
      assert a2 == [a2[0]] + t;
    }
  }

  /** Putting the same element in front of a permutation and of one of its parts. */
  lemma ConsPermutation(x: int, m: seq<int>, t: seq<int>, other: seq<int>)
    requires multiset(m) == multiset(t) + multiset(other) || multiset(m) == multiset(other) + multiset(t)
    ensures multiset([x] + m) == multiset([x] + t) + multiset(other)
    ensures multiset([x] + m) == multiset(other) + multiset([x] + t)
  {
    assert multiset([x] + m) == multiset([x]) + multiset(m);
    assert multiset([x] + t) == multiset([x]) + multiset(t);
  }

  /** The first element of a merge is the first element of one of its inputs. */
  lemma MergedHead(a1: seq<int>, a2: seq<int>)
    requires |a1| + |a2| > 0
    ensures (|a1| > 0 && Merged(a1, a2)[0] == a1[0]) || (|a2| > 0 && Merged(a1, a2)[0] == a2[0])
  {
  }

  lemma {:induction false} MergedSorted(a1: seq<int>, a2: seq<int>)
    requires Sorted(a1) && Sorted(a2)
    ensures Sorted(Merged(a1, a2))
    decreases |a1| + |a2|
  {
    if |a1| == 0 || |a2| == 0 {
    } else if a1[0] < a2[0] {
      var t := a1[1..];
      MergedSorted(t, a2);
      var rest := Merged(t, a2);
      if |rest| > 0 {
        MergedHead(t, a2);
        assert |t| > 0 ==> t[0] == a1[1];
      }
      SortedCons(a1[0], rest);
      assert Merged(a1, a2) == [a1[0]] + rest;
    } else {
      var t := a2[1..];
      MergedSorted(a1, t);
      var rest := Merged(a1, t);
      if |rest| > 0 {
        MergedHead(a1, t);
        assert |t| > 0 ==> t[0] == a2[1];
      }
      SortedCons(a2[0], rest);
      assert Merged(a1, a2) == [a2[0]] + rest;
    }
  }

  /** Putting an element no larger than the head in front of a sorted sequence keeps it sorted. */
  lemma SortedCons(x: int, s: seq<int>)
    requires Sorted(s)
    requires |s| > 0 ==> x <= s[0]
    ensures Sorted([x] + s)
  {
    forall i, j | 0 <= i < j < |[x] + s|
      ensures ([x] + s)[i] <= ([x] + s)[j]
    {
      assert ([x] + s)[j] == s[j - 1];
      if i > 0 {
        assert ([x] + s)[i] == s[i - 1];
      } else {
        assert s[0] <= s[j - 1];
      }
    }
  }

  /** What the `while` loop of `merge` has written when it stops, and where. */
  datatype Weaving = Weaving(written: seq<int>, i: nat, j: nat)

  /**
   * The `while` loop of `merge` run from positions `i` and `j`: it stops as
   * soon as one input is used up, having written one element per step.
   */
  function Weave(a1: seq<int>, a2: seq<int>, i: nat, j: nat): (w: Weaving)
    requires i <= |a1| && j <= |a2|
    ensures i <= w.i <= |a1| && j <= w.j <= |a2|
    ensures w.i == |a1| || w.j == |a2|
    ensures |w.written| == (w.i - i) + (w.j - j)
    decreases |a1| - i + |a2| - j
  {
    if i < |a1| && j < |a2| then
      if a1[i] < a2[j] then
        var w := Weave(a1, a2, i + 1, j);
        Weaving([a1[i]] + w.written, w.i, w.j)
      else
        var w := Weave(a1, a2, i, j + 1);
        Weaving([a2[j]] + w.written, w.i, w.j)
    else
      Weaving([], i, j)
  }

  /**
   * What the loop of `merge` writes, followed by the merge of what it left,
   * is the merge of the two remainders it started from.
   */
  lemma {:induction false} WeaveMerges(a1: seq<int>, a2: seq<int>, i: nat, j: nat)
    requires i <= |a1| && j <= |a2|
    ensures var w := Weave(a1, a2, i, j);
      w.written + Merged(a1[w.i..], a2[w.j..]) == Merged(a1[i..], a2[j..])
    decreases |a1| - i + |a2| - j
  {
    if i < |a1| && j < |a2| {
      var x, y := a1[i..], a2[j..];
      assert x[0] == a1[i] && y[0] == a2[j];
      assert x[1..] == a1[i + 1..] && y[1..] == a2[j + 1..];
      if a1[i] < a2[j] {
        var w := Weave(a1, a2, i + 1, j);
        var rest := Merged(a1[w.i..], a2[w.j..]);
        WeaveMerges(a1, a2, i + 1, j);
        assert Merged(x, y) == [a1[i]] + Merged(a1[i + 1..], y);
        AppendAssociative([a1[i]], w.written, rest);
      } else {
        var w := Weave(a1, a2, i, j + 1);
        var rest := Merged(a1[w.i..], a2[w.j..]);
        WeaveMerges(a1, a2, i, j + 1);
        assert Merged(x, y) == [a2[j]] + Merged(x, a2[j + 1..]);
        AppendAssociative([a2[j]], w.written, rest);
      }
    }
  }

  lemma AppendAssociative(x: seq<int>, y: seq<int>, z: seq<int>)
    ensures (x + y) + z == x + (y + z)
  {
  }

  /**
   * The merge of two whole inputs is what the loop writes followed by the
   * rest of whichever input it did not use up.
   */
  lemma WeaveThenRest(a1: seq<int>, a2: seq<int>)
    ensures var w := Weave(a1, a2, 0, 0);
      Merged(a1, a2) == w.written + (if w.i < |a1| then a1[w.i..] else a2[w.j..])
  {
    WeaveMerges(a1, a2, 0, 0);
    var w := Weave(a1, a2, 0, 0);
    assert a1[0..] == a1 && a2[0..] == a2;
    if w.i < |a1| {
      assert a2[w.j..] == [];
    } else {
      assert a1[w.i..] == [];
    }
  }

  /**
   * What `merge` leaves in `vector`, with the bound that guards the copy of
   * the rest of `a2` given as `guard`: the source tests `j < array1.len()`,
   * so `merge` as written is `MergeWith(a1, a2, prior, |a1|)`, and the
   * evidently intended test `j < array2.len()` is `MergeWith(a1, a2, prior,
   * |a2|)`. `prior` is what `vector` held before; `None` is a panic.
   *  - the lengths disagree: `assert_eq!` panics;
   *  - `a2` ran out first: the rest of `a1` is copied; if `guard` then still
   *    admits `j`, the empty rest of `a2` is copied over that non-empty tail
   *    and `copy_from_slice` panics;
   *  - `a1` ran out first: the rest of `a2` is copied only if `guard` admits
   *    `j`; otherwise the tail of `vector` keeps its prior contents.
   */
  function MergeWith(a1: seq<int>, a2: seq<int>, prior: seq<int>, guard: nat): (r: Option<seq<int>>)
    ensures r.Some? ==> |r.value| == |prior|
  {
    if |a1| + |a2| != |prior| then None
    else
      var w := Weave(a1, a2, 0, 0);
      if w.i < |a1| then
        if w.j < guard then None else Some(w.written + a1[w.i..])
      else if w.j < guard then Some(w.written + a2[w.j..])
      else Some(w.written + prior[|w.written|..])
  }

  /** `merge` as the source writes it (line 31 tests against `array1.len()`). */
  function MergeAsWritten(a1: seq<int>, a2: seq<int>, prior: seq<int>): (r: Option<seq<int>>)
    ensures |a1| + |a2| != |prior| ==> r.None?
  {
    MergeWith(a1, a2, prior, |a1|)
  }

  /** `merge` with the tail test against `array2.len()`. */
  function MergeIntended(a1: seq<int>, a2: seq<int>, prior: seq<int>): (r: Option<seq<int>>)
    ensures |a1| + |a2| != |prior| ==> r.None?
  {
    MergeWith(a1, a2, prior, |a2|)
  }

  /** With the intended bound, `merge` writes the merge of its inputs whenever the lengths agree. */
  lemma MergeIntendedMerges(a1: seq<int>, a2: seq<int>, prior: seq<int>)
    requires |a1| + |a2| == |prior|
    ensures MergeIntended(a1, a2, prior) == Some(Merged(a1, a2))
  {
    WeaveThenRest(a1, a2);
    var w := Weave(a1, a2, 0, 0);
    if w.i == |a1| && w.j == |a2| {
      assert prior[|w.written|..] == [] == a2[w.j..];
    }
  }

  /**
   * Inside `merge_sort`, `vector` starts as a copy of `array` (so it is `a1 +
   * a2`) and the first half is never the longer one; there the line-31 test
   * does no harm: a skipped tail of `a2` is already in place.
   */
  lemma MergeAsWrittenInMergeSort(a1: seq<int>, a2: seq<int>)
    requires |a1| <= |a2|
    ensures MergeAsWritten(a1, a2, a1 + a2) == Some(Merged(a1, a2))
  {
    WeaveThenRest(a1, a2);
    var w := Weave(a1, a2, 0, 0);
    if w.i == |a1| {
      assert (a1 + a2)[|w.written|..] == a2[w.j..];
    }
  }

  /**
   * `merge` as written, called on its own: when `array1` runs out first with
   * `j >= array1.len()`, the tail of `array2` is never copied and `vector`
   * keeps its old tail. The result is neither sorted nor a permutation.
   */
  lemma MergeAsWrittenDropsTail()
    ensures MergeAsWritten([2], [1, 3], [0, 0, 0]) == Some([1, 2, 0])
    ensures MergeIntended([2], [1, 3], [0, 0, 0]) == Some([1, 2, 3])
  {
    var w := Weave([2], [1, 3], 0, 0);
    assert Weave([2], [1, 3], 1, 1) == Weaving([], 1, 1);
    assert Weave([2], [1, 3], 0, 1) == Weaving([2], 1, 1);
    assert w == Weaving([1, 2], 1, 1);
    assert [2][1..] == [] && [1, 3][1..] == [3];
    assert ([1, 2] + [0, 0, 0][2..]) == [1, 2, 0];
    assert ([1, 2, 0][..2] + [3]) == [1, 2, 3];
  }

  /**
   * `merge` as written, called on its own: when `array2` runs out first and is
   * the shorter input, line 31 copies the empty rest of `array2` over a
   * non-empty tail of `vector`, and `copy_from_slice` panics.
   */
  lemma MergeAsWrittenPanics()
    ensures MergeAsWritten([1, 2], [0], [0, 0, 0]) == None
    ensures MergeIntended([1, 2], [0], [0, 0, 0]) == Some([0, 1, 2])
  {
    assert Weave([1, 2], [0], 0, 1) == Weaving([], 0, 1);
    assert Weave([1, 2], [0], 0, 0) == Weaving([0], 0, 1);
    assert [1, 2][0..] == [1, 2] && [0][1..] == [];
    assert [0] + [0, 0, 0][1..] == [0, 0, 0];
    assert [0, 0, 0][..1] + [1, 2] == [0, 1, 2];
    assert [0, 1, 2][..1] == [0];
  }

  /**
   * `copy_from_slice` into `dst[lo..hi]`: panics unless the lengths agree,
   * otherwise overwrites exactly that range.
   */
  method CopyFromSlice(dst: array<int>, lo: nat, hi: nat, src: seq<int>) returns (panicked: bool)
    requires lo <= hi <= dst.Length
    modifies dst
    ensures panicked <==> hi - lo != |src|
    ensures !panicked ==> dst[lo..hi] == src
    ensures !panicked ==> forall k :: lo <= k < hi ==> dst[k] == src[k - lo]
    ensures forall k :: 0 <= k < dst.Length && !(!panicked && lo <= k < hi) ==> dst[k] == old(dst[k])
  {
    if hi - lo != |src| {
      return true;
    }
    forall t | lo <= t < hi {
      dst[t] := src[t - lo];
    }
    return false;
  }

  /**
   * The loop of `merge` has written `done` and stands at `i` and `j`: running
   * it on from there finishes what it would have done from the start.
   */
  ghost predicate Resumes(a1: seq<int>, a2: seq<int>, done: seq<int>, i: nat, j: nat)
    requires i <= |a1| && j <= |a2|
  {
    var w := Weave(a1, a2, i, j);
    Weave(a1, a2, 0, 0) == Weaving(done + w.written, w.i, w.j)
  }

  /** One step of the loop of `merge` keeps `Resumes`. */
  lemma WeaveStep(a1: seq<int>, a2: seq<int>, done: seq<int>, i: nat, j: nat)
    requires i < |a1| && j < |a2| && Resumes(a1, a2, done, i, j)
    ensures a1[i] < a2[j] ==> Resumes(a1, a2, done + [a1[i]], i + 1, j)
    ensures !(a1[i] < a2[j]) ==> Resumes(a1, a2, done + [a2[j]], i, j + 1)
  {
    if a1[i] < a2[j] {
      assert done + [a1[i]] + Weave(a1, a2, i + 1, j).written == done + Weave(a1, a2, i, j).written;
    } else {
      assert done + [a2[j]] + Weave(a1, a2, i, j + 1).written == done + Weave(a1, a2, i, j).written;
    }
  }

  /** When the loop of `merge` stops, `done` is everything it writes. */
  lemma ResumesAtEnd(a1: seq<int>, a2: seq<int>, done: seq<int>, i: nat, j: nat)
    requires i <= |a1| && j <= |a2| && !(i < |a1| && j < |a2|) && Resumes(a1, a2, done, i, j)
    ensures Weave(a1, a2, 0, 0) == Weaving(done, i, j)
  {
    assert done + [] == done;
  }

  /** A sequence that agrees with `done` and then with `rest`, position by position, is `done + rest`. */
  lemma Spliced(v: seq<int>, done: seq<int>, rest: seq<int>)
    requires |v| == |done| + |rest|
    requires forall t :: 0 <= t < |done| ==> v[t] == done[t]
    requires forall t :: |done| <= t < |v| ==> v[t] == rest[t - |done|]
    ensures v == done + rest
  {
  }

  /**
   * Where the loop of `merge` stopped determines the outcome: `done` was
   * written, and the two copies after the loop either panic or finish the
   * job as `MergeAsWritten` says.
   */
  lemma {:induction false} MergeAfterLoop(a1: seq<int>, a2: seq<int>, prior: seq<int>, done: seq<int>, i: nat, j: nat)
    requires |a1| + |a2| == |prior| && i <= |a1| && j <= |a2|
    requires Weave(a1, a2, 0, 0) == Weaving(done, i, j)
    ensures |done| == i + j && (i == |a1| || j == |a2|)
    ensures MergeAsWritten(a1, a2, prior)
      == if i < |a1| then (if j < |a1| then None else Some(done + a1[i..]))
         else if j < |a1| then Some(done + a2[j..])
         else Some(done + prior[|done|..])
  {
  }

  /**
   * The `while` loop of `merge`: writes `vector[k]` from whichever input has
   * the strictly smaller head (ties take from `array2`) until one input runs
   * out. It writes exactly what `Weave` says and leaves the rest of `v` alone.
   */
  method WeaveInto(a1: seq<int>, a2: seq<int>, v: array<int>) returns (i: nat, j: nat, k: nat)
    requires |a1| + |a2| == v.Length
    modifies v
    ensures k == i + j <= v.Length && Weave(a1, a2, 0, 0) == Weaving(v[..k], i, j)
    ensures forall t :: k <= t < v.Length ==> v[t] == old(v[t])
  {
    ghost var done: seq<int> := [];
    i, j, k := 0, 0, 0;
    while i < |a1| && j < |a2|
      invariant i <= |a1| && j <= |a2| && k == i + j == |done|
      invariant forall t :: 0 <= t < k ==> v[t] == done[t]
      invariant forall t :: k <= t < v.Length ==> v[t] == old(v[t])
      invariant Resumes(a1, a2, done, i, j)
    {
      WeaveStep(a1, a2, done, i, j);
      if a1[i] < a2[j] {
        v[k] := a1[i];
        done := done + [a1[i]];
        i := i + 1;
      } else {
        v[k] := a2[j];
        done := done + [a2[j]];
        j := j + 1;
      }
      k := k + 1;
    }
    ResumesAtEnd(a1, a2, done, i, j);
    assert v[..k] == done;
  }

  /**
   * `merge`, as written: the `assert_eq!` on the lengths, the `while` loop,
   * then the copy of the rest of `array1`, then the copy of the rest of
   * `array2` guarded by `j < array1.len()`.
   */
  method Merge(a1: seq<int>, a2: seq<int>, v: array<int>) returns (panicked: bool)
    modifies v
    ensures panicked <==> MergeAsWritten(a1, a2, old(v[..])).None?
    ensures !panicked ==> v[..] == MergeAsWritten(a1, a2, old(v[..])).value
  {
    if |a1| + |a2| != v.Length {
      return true;
    }
    ghost var prior := v[..];
    var i, j, k := WeaveInto(a1, a2, v);
    ghost var done := v[..k];
    MergeAfterLoop(a1, a2, prior, done, i, j);

    if i < |a1| {
      panicked := CopyFromSlice(v, k, v.Length, a1[i..]);
      if panicked {
        return;
      }
      Spliced(v[..], done, a1[i..]);
    }

    if j < |a1| {
      panicked := CopyFromSlice(v, k, v.Length, a2[j..]);
      if panicked {
        return;
      }
      Spliced(v[..], done, a2[j..]);
    }
    if !(i < |a1|) && !(j < |a1|) {
      Spliced(v[..], done, prior[k..]);
    }
    panicked := false;
  }

  /** Every pair of positions in `[lo, hi)` is in non-decreasing order. */
  ghost predicate SortedRange(s: seq<int>, lo: nat, hi: nat)
  {
    forall i, j :: lo <= i < j < hi && j < |s| ==> s[i] <= s[j]
  }

  /** A range of `s` is sorted exactly when the slice is. */
  lemma SortedRangeSlice(s: seq<int>, lo: nat, hi: nat)
    requires lo <= hi <= |s|
    ensures SortedRange(s, lo, hi) <==> Sorted(s[lo..hi])
  {
    if SortedRange(s, lo, hi) {
      forall i, j | 0 <= i < j < hi - lo
        ensures s[lo..hi][i] <= s[lo..hi][j]
      {
        assert s[lo..hi][i] == s[lo + i] && s[lo..hi][j] == s[lo + j];
      }
    }
    if Sorted(s[lo..hi]) {
      forall i, j | lo <= i < j < hi && j < |s|
        ensures s[i] <= s[j]
      {
        assert s[i] == s[lo..hi][i - lo] && s[j] == s[lo..hi][j - lo];
      }
    }
  }

  /**
   * Overwriting the slice `[lo, hi)` of `before` with a sorted permutation
   * of it sorts that range and keeps the whole a permutation.
   */
  lemma {:induction false} WrittenBack(before: seq<int>, after: seq<int>, lo: nat, hi: nat)
    requires lo <= hi <= |before| == |after|
    requires forall k :: 0 <= k < |before| && !(lo <= k < hi) ==> after[k] == before[k]
    requires Sorted(after[lo..hi]) && multiset(after[lo..hi]) == multiset(before[lo..hi])
    ensures SortedRange(after, lo, hi) && multiset(after) == multiset(before)
  {
    SortedRangeSlice(after, lo, hi);
    assert after[..lo] == before[..lo];
    assert after[hi..] == before[hi..];
    assert before == before[..lo] + before[lo..hi] + before[hi..];
    assert after == after[..lo] + after[lo..hi] + after[hi..];
  }

  /**
   * What the last lines of `merge_sort` do, on values: `merge` as written,
   * with `vector` a copy of the slice `[lo, hi)` whose halves `[lo, mid)` and
   * `[mid, hi)` are sorted and the first never the longer, produces a sorted
   * permutation of the slice.
   */
  lemma MergeOfSortedHalves(s: seq<int>, lo: nat, mid: nat, hi: nat)
    requires lo <= mid <= hi <= |s| && mid - lo <= hi - mid
    requires SortedRange(s, lo, mid) && SortedRange(s, mid, hi)
    ensures var r := MergeAsWritten(s[lo..mid], s[mid..hi], s[lo..hi]);
      r.Some? && Sorted(r.value) && multiset(r.value) == multiset(s[lo..hi])
  {
    var left, right := s[lo..mid], s[mid..hi];
    SortedRangeSlice(s, lo, mid);
    SortedRangeSlice(s, mid, hi);
    assert s[lo..hi] == left + right;
    MergeAsWrittenInMergeSort(left, right);
    MergedSorted(left, right);
    MergedPermutation(left, right);
  }

  /** `to_vec`: a fresh array holding a copy of `s`. */
  method ToVec(s: seq<int>) returns (v: array<int>)
    ensures fresh(v) && v[..] == s
  {
    v := new int[|s|](t requires 0 <= t < |s| => s[t]);
  }

  /**
   * The last three lines of `merge_sort`: the slice is copied with `to_vec`,
   * its sorted halves `[lo, mid)` and `[mid, hi)` are merged into the copy,
   * and the copy is written back over the slice.
   */
  method MergeHalves(a: array<int>, lo: nat, mid: nat, hi: nat)
    requires lo <= mid <= hi <= a.Length && mid - lo <= hi - mid
    requires SortedRange(a[..], lo, mid) && SortedRange(a[..], mid, hi)
    modifies a
    ensures SortedRange(a[..], lo, hi) && multiset(a[..]) == old(multiset(a[..]))
    ensures forall k :: 0 <= k < a.Length && !(lo <= k < hi) ==> a[k] == old(a[k])
  {
    ghost var before := a[..];
    MergeOfSortedHalves(before, lo, mid, hi);
    var vector := ToVec(a[lo..hi]);
    var panicked := Merge(a[lo..mid], a[mid..hi], vector);
    assert !panicked;
    panicked := CopyFromSlice(a, lo, hi, vector[..]);
    assert !panicked;
    WrittenBack(before, a[..], lo, hi);
  }

  /**
   * `merge_sort` on the slice `a[lo..hi]`: sorts both halves, then merges
   * them. The slice ends up sorted, the array holds the same elements, and
   * nothing outside the slice changes.
   */
  method MergeSort(a: array<int>, lo: nat, hi: nat)
    requires lo <= hi <= a.Length
    modifies a
    ensures SortedRange(a[..], lo, hi) && multiset(a[..]) == old(multiset(a[..]))
    ensures forall k :: 0 <= k < a.Length && !(lo <= k < hi) ==> a[k] == old(a[k])
    decreases hi - lo
  {
    var n := hi - lo;
    var m := n / 2;

    if n <= 1 {
      return;
    }

    MergeSort(a, lo, lo + m);
    MergeSort(a, lo + m, hi);
    MergeHalves(a, lo, lo + m, hi);
  }
}
