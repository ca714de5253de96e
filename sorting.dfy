/**
 * The merge sort the game tree uses to order its children's values
 * (GameTree.java, inner class MyMergeSort).  It sorts an array in place into
 * descending order, merging through a scratch array of the same length.
 */
module Sorting {
  import opened Scores

  /** Descending order on the index range [lo, hi) of `s`, stated on neighbours. */
  ghost predicate SortedRange(s: seq<Score>, lo: int, hi: int)
    requires 0 <= lo <= hi <= |s|
  {
    forall p :: lo < p < hi ==> Le(s[p], s[p - 1])
  }

  lemma LeTrans(x: Score, y: Score, z: Score)
    requires Le(x, y) && Le(y, z)
    ensures Le(x, z)
  {
  }

  /** Neighbour-wise descending order is descending order. */
  lemma {:induction false} SortedRangeSlice(s: seq<Score>, lo: int, hi: int)
    requires 0 <= lo <= hi <= |s|
    requires SortedRange(s, lo, hi)
    ensures NonIncreasing(s[lo..hi])
    decreases hi - lo
  {
    if hi - lo > 1 {
      SortedRangeSlice(s, lo, hi - 1);
      forall p, q | 0 <= p < q < hi - lo ensures Le(s[lo..hi][q], s[lo..hi][p]) {
        assert s[lo..hi][q] == s[lo + q] && s[lo..hi][p] == s[lo + p];
        if q < hi - lo - 1 {
          assert s[lo..hi - 1][q] == s[lo + q] && s[lo..hi - 1][p] == s[lo + p];
        } else if p < q - 1 {
          assert s[lo..hi - 1][q - 1] == s[lo + q - 1] && s[lo..hi - 1][p] == s[lo + p];
          LeTrans(s[lo + q], s[lo + q - 1], s[lo + p]);
        }
      }
    }
  }

  /** Descending order is neighbour-wise descending order. */
  lemma NonIncreasingSorted(s: seq<Score>, lo: int, hi: int)
    requires 0 <= lo <= hi <= |s|
    requires NonIncreasing(s[lo..hi])
    ensures SortedRange(s, lo, hi)
  {
    forall p | lo < p < hi ensures Le(s[p], s[p - 1]) {
      assert s[lo..hi][p - lo] == s[p] && s[lo..hi][p - 1 - lo] == s[p - 1];
    }
  }

  /** Splitting a range splits its multiset. */
  lemma SplitMultiset(s: seq<Score>, lo: int, mid: int, hi: int)
    requires 0 <= lo <= mid <= hi <= |s|
    ensures multiset(s[lo..hi]) == multiset(s[lo..mid]) + multiset(s[mid..hi])
  {
    assert s[lo..hi] == s[lo..mid] + s[mid..hi];
  }

  /** Growing a range by one element adds that element to its multiset. */
  lemma GrowMultiset(s: seq<Score>, lo: int, k: int)
    requires 0 <= lo <= k < |s|
    ensures multiset(s[lo..k + 1]) == multiset(s[lo..k]) + multiset{s[k]}
  {
    assert s[lo..k + 1] == s[lo..k] + [s[k]];
  }

  /** Ranges that agree pointwise are equal. */
  lemma SameRange(s: seq<Score>, t: seq<Score>, lo: int, hi: int)
    requires 0 <= lo <= hi <= |s| && hi <= |t|
    requires forall q :: lo <= q < hi ==> s[q] == t[q]
    ensures s[lo..hi] == t[lo..hi]
  {
  }

  /** Writing `x` at position k adds x to the multiset of [lo, k + 1). */
  lemma ExtendMultiset(s: seq<Score>, lo: int, k: int, x: Score)
    requires 0 <= lo <= k < |s|
    ensures multiset(s[k := x][lo..k + 1]) == multiset(s[lo..k]) + multiset{x}
  {
    assert s[k := x][lo..k + 1] == s[lo..k] + [x];
  }

  /**
   * The state of MergeParts's merge loops: `s` is the array, `t` the scratch copy of
   * the original `a`; the prefix [lo, k) holds, in descending order, the elements
   * t[lo..i] and t[mid + 1..j] already taken from the two runs.
   */
  ghost predicate MergeInv(s: seq<Score>, t: seq<Score>, a: seq<Score>, lo: int, mid: int, hi: int, i: int, j: int, k: int)
  {
    && |s| == |a| && |t| == |a|
    && 0 <= lo <= i <= mid + 1 <= j <= hi + 1 <= |a|
    && k == i + j - mid - 1
    && (forall q :: lo <= q <= hi ==> t[q] == a[q])
    && SortedRange(t, lo, mid + 1) && SortedRange(t, mid + 1, hi + 1)
    && (forall q :: 0 <= q < |s| && !(lo <= q < k) ==> s[q] == a[q])
    && SortedRange(s, lo, k)
    && TakenFrom(s, t, lo, mid, i, j, k)
    && (lo < k && i <= mid ==> Le(t[i], s[k - 1]))
    && (lo < k && j <= hi ==> Le(t[j], s[k - 1]))
  }

  /** The merged prefix [lo, k) of `s` holds exactly t[lo..i] and t[mid + 1..j]. */
  ghost predicate TakenFrom(s: seq<Score>, t: seq<Score>, lo: int, mid: int, i: int, j: int, k: int)
  {
    && 0 <= lo <= k <= |s| && lo <= i <= mid + 1 <= j <= |t|
    && multiset(s[lo..k]) == multiset(t[lo..i]) + multiset(t[mid + 1..j])
  }

  lemma TakenLeft(s: seq<Score>, t: seq<Score>, lo: int, mid: int, i: int, j: int, k: int)
    requires 0 <= lo <= k < |s| && lo <= i <= mid < j <= |t|
    requires TakenFrom(s, t, lo, mid, i, j, k)
    ensures TakenFrom(s[k := t[i]], t, lo, mid, i + 1, j, k + 1)
  {
    ExtendMultiset(s, lo, k, t[i]);
    GrowMultiset(t, lo, i);
  }

  lemma TakenRight(s: seq<Score>, t: seq<Score>, lo: int, mid: int, i: int, j: int, k: int)
    requires 0 <= lo <= k < |s| && lo <= i <= mid + 1 <= j < |t|
    requires TakenFrom(s, t, lo, mid, i, j, k)
    ensures TakenFrom(s[k := t[j]], t, lo, mid, i, j + 1, k + 1)
  {
    ExtendMultiset(s, lo, k, t[j]);
    GrowMultiset(t, mid + 1, j);
  }

  lemma MergeStart(a: seq<Score>, t: seq<Score>, lo: int, mid: int, hi: int)
    requires 0 <= lo <= mid < hi < |a| && |t| == |a|
    requires NonIncreasing(a[lo..mid + 1]) && NonIncreasing(a[mid + 1..hi + 1])
    requires forall q :: lo <= q <= hi ==> t[q] == a[q]
    ensures MergeInv(a, t, a, lo, mid, hi, lo, mid + 1, lo)
  {
    NonIncreasingSorted(a, lo, mid + 1);
    NonIncreasingSorted(a, mid + 1, hi + 1);
  }

  /** Taking the left head, no smaller than the right head, into position k keeps MergeInv. */
  lemma MergeTakeLeft(s: seq<Score>, t: seq<Score>, a: seq<Score>, lo: int, mid: int, hi: int, i: int, j: int, k: int, i': int, k': int)
    requires MergeInv(s, t, a, lo, mid, hi, i, j, k)
    requires i <= mid && (j <= hi ==> Le(t[j], t[i]))
    requires i' == i + 1 && k' == k + 1
    ensures MergeInv(s[k := t[i]], t, a, lo, mid, hi, i', j, k')
  {
    TakenLeft(s, t, lo, mid, i, j, k);
  }

  /** Taking the right head, larger than the left head, into position k keeps MergeInv. */
  lemma MergeTakeRight(s: seq<Score>, t: seq<Score>, a: seq<Score>, lo: int, mid: int, hi: int, i: int, j: int, k: int, j': int, k': int)
    requires MergeInv(s, t, a, lo, mid, hi, i, j, k)
    requires j <= hi && (i <= mid ==> Le(t[i], t[j]))
    requires j' == j + 1 && k' == k + 1
    ensures MergeInv(s[k := t[j]], t, a, lo, mid, hi, i, j', k')
  {
    TakenRight(s, t, lo, mid, i, j, k);
  }

  /** Once the left run is used up, the right run's rest already sits in place: the range is sorted. */
  lemma MergeDoneSorted(s: seq<Score>, t: seq<Score>, a: seq<Score>, lo: int, mid: int, hi: int, i: int, j: int, k: int)
    requires MergeInv(s, t, a, lo, mid, hi, i, j, k)
    requires i == mid + 1
    ensures NonIncreasing(s[lo..hi + 1])
  {
    DoneSorted(s, t, lo, mid, hi, j);
    SortedRangeSlice(s, lo, hi + 1);
  }

  /** Once the left run is used up, the range holds what it held before the merge. */
  lemma MergeDonePermutes(s: seq<Score>, t: seq<Score>, a: seq<Score>, lo: int, mid: int, hi: int, i: int, j: int, k: int)
    requires MergeInv(s, t, a, lo, mid, hi, i, j, k)
    requires i == mid + 1
    ensures multiset(s[lo..hi + 1]) == multiset(a[lo..hi + 1])
  {
    RestInPlace(s, t, a, lo, mid, hi, i, j, k);
    TakenAll(s, t, a, lo, mid, hi, j);
  }

  /** Once the left run is used up, the rest of the right run has never moved. */
  lemma RestInPlace(s: seq<Score>, t: seq<Score>, a: seq<Score>, lo: int, mid: int, hi: int, i: int, j: int, k: int)
    requires MergeInv(s, t, a, lo, mid, hi, i, j, k)
    requires i == mid + 1
    ensures s[j..hi + 1] == t[j..hi + 1] && t[lo..hi + 1] == a[lo..hi + 1]
  {
    SameRange(s, t, k, hi + 1);
    SameRange(t, a, lo, hi + 1);
  }

  /** The end of MergeParts: the merged range is sorted, a permutation, and nothing else moved. */
  lemma MergeDone(s: seq<Score>, t: seq<Score>, a: seq<Score>, lo: int, mid: int, hi: int, i: int, j: int, k: int)
    requires MergeInv(s, t, a, lo, mid, hi, i, j, k)
    requires i == mid + 1
    ensures NonIncreasing(s[lo..hi + 1])
    ensures multiset(s[lo..hi + 1]) == multiset(a[lo..hi + 1])
    ensures forall q :: 0 <= q < |s| && !(lo <= q <= hi) ==> s[q] == a[q]
  {
    MergeDoneSorted(s, t, a, lo, mid, hi, i, j, k);
    MergeDonePermutes(s, t, a, lo, mid, hi, i, j, k);
  }

  /** The sorted merged prefix followed by the sorted, no larger rest of the right run is sorted. */
  lemma DoneSorted(s: seq<Score>, t: seq<Score>, lo: int, mid: int, hi: int, j: int)
    requires 0 <= lo <= mid + 1 <= j <= hi + 1 <= |s| == |t|
    requires SortedRange(s, lo, j) && SortedRange(t, mid + 1, hi + 1)
    requires forall q :: j <= q <= hi ==> s[q] == t[q]
    requires lo < j && j <= hi ==> Le(t[j], s[j - 1])
    ensures SortedRange(s, lo, hi + 1)
  {
    forall p | lo < p < hi + 1 ensures Le(s[p], s[p - 1]) {
      if p > j {
        assert s[p] == t[p] && s[p - 1] == t[p - 1];
      }
    }
  }

  lemma UnionAssoc(x: multiset<Score>, y: multiset<Score>, z: multiset<Score>)
    ensures x + y + z == x + (y + z)
  {
  }

  /** The merged prefix plus the untouched rest of the right run is all of the original range. */
  lemma TakenAll(s: seq<Score>, t: seq<Score>, a: seq<Score>, lo: int, mid: int, hi: int, j: int)
    requires 0 <= lo <= mid + 1 <= j <= hi + 1 <= |s| && |s| == |t| == |a|
    requires TakenFrom(s, t, lo, mid, mid + 1, j, j)
    requires s[j..hi + 1] == t[j..hi + 1] && t[lo..hi + 1] == a[lo..hi + 1]
    ensures multiset(s[lo..hi + 1]) == multiset(a[lo..hi + 1])
  {
    SplitMultiset(s, lo, j, hi + 1);
    SplitMultiset(t, lo, mid + 1, hi + 1);
    SplitMultiset(t, mid + 1, j, hi + 1);
    UnionAssoc(multiset(t[lo..mid + 1]), multiset(t[mid + 1..j]), multiset(t[j..hi + 1]));
  }

  class MergeSorter {
    var arr: array<Score>
    var tempMergArr: array<Score>
    var length: int

    constructor ()
      ensures length == 0
    {
      arr := new Score[0];
      tempMergArr := new Score[0];
      length := 0;
    }

    /** Sorts `inputArr` in place into descending order. */
    method Sort(inputArr: array<Score>)
      modifies this, inputArr
      ensures NonIncreasing(inputArr[..])
      ensures multiset(inputArr[..]) == old(multiset(inputArr[..]))
      ensures arr == inputArr && length == inputArr.Length
    {
      arr := inputArr;
      length := inputArr.Length;
      tempMergArr := new Score[length];
      assert arr[0..length] == old(inputArr[..]);
      DoMergeSort(0, length - 1);
      assert arr[0..length] == arr[..];
    }

    /** Sorts the closed index range [lowerIndex, higherIndex] of `arr`. */
    method DoMergeSort(lowerIndex: int, higherIndex: int)
      requires arr != tempMergArr && arr.Length == tempMergArr.Length
      requires 0 <= lowerIndex <= higherIndex + 1 <= arr.Length
      modifies arr, tempMergArr
      ensures NonIncreasing(arr[lowerIndex..higherIndex + 1])
      ensures multiset(arr[lowerIndex..higherIndex + 1]) == old(multiset(arr[lowerIndex..higherIndex + 1]))
      ensures forall k :: 0 <= k < arr.Length && !(lowerIndex <= k <= higherIndex) ==> arr[k] == old(arr[k])
      decreases higherIndex - lowerIndex
    {
      if lowerIndex < higherIndex {
        var middle := lowerIndex + (higherIndex - lowerIndex) / 2;
        ghost var a0 := arr[..];
        DoMergeSort(lowerIndex, middle);
        ghost var a1 := arr[..];
        DoMergeSort(middle + 1, higherIndex);
        ghost var a2 := arr[..];
        HalvesFrame(a0, a1, a2, lowerIndex, middle, higherIndex);
        SameRange(a1, a0, middle + 1, higherIndex + 1);
        HalvesPermute(a0, a1, a2, lowerIndex, middle, higherIndex);
        MergeParts(lowerIndex, middle, higherIndex);
        FrameTrans(a0, a2, arr[..], lowerIndex, higherIndex);
      }
    }

    /** Merges the descending runs [lowerIndex, middle] and [middle + 1, higherIndex]. */
    method MergeParts(lowerIndex: int, middle: int, higherIndex: int)
      requires arr != tempMergArr && arr.Length == tempMergArr.Length
      requires 0 <= lowerIndex <= middle < higherIndex < arr.Length
      requires NonIncreasing(arr[lowerIndex..middle + 1])
      requires NonIncreasing(arr[middle + 1..higherIndex + 1])
      modifies arr, tempMergArr
      ensures NonIncreasing(arr[lowerIndex..higherIndex + 1])
      ensures multiset(arr[lowerIndex..higherIndex + 1]) == old(multiset(arr[lowerIndex..higherIndex + 1]))
      ensures forall k :: 0 <= k < arr.Length && !(lowerIndex <= k <= higherIndex) ==> arr[k] == old(arr[k])
    {
      ghost var a := arr[..];
      CopyToTemp(lowerIndex, higherIndex);
      ghost var t := tempMergArr[..];
      var i, j, k, g := MergeRuns(lowerIndex, middle, higherIndex, t, a);
      g := MergeLeftRest(lowerIndex, middle, higherIndex, i, j, k, t, a, g);
      assert arr[..] == g;
    }

    /** The first loop of MergeParts: copies the range [lowerIndex, higherIndex] to the scratch array. */
    method CopyToTemp(lowerIndex: int, higherIndex: int)
      requires arr != tempMergArr && arr.Length == tempMergArr.Length
      requires 0 <= lowerIndex && higherIndex < arr.Length
      modifies tempMergArr
      ensures forall q :: lowerIndex <= q <= higherIndex ==> tempMergArr[q] == arr[q]
    {
      var c := lowerIndex;
      while c <= higherIndex
        invariant lowerIndex <= c && (lowerIndex <= higherIndex + 1 ==> c <= higherIndex + 1)
        invariant forall q :: lowerIndex <= q < c && q <= higherIndex ==> tempMergArr[q] == arr[q]
      {
        tempMergArr[c] := arr[c];
        c := c + 1;
      }
    }

    /**
     * The main loop of MergeParts: while both runs have elements left, moves the larger
     * head (the left one on ties) from the scratch copy to position k.  The ghost `g`
     * follows the contents of `arr` as a value.
     */
    method MergeRuns(lowerIndex: int, middle: int, higherIndex: int, ghost t: seq<Score>, ghost a: seq<Score>)
        returns (i: int, j: int, k: int, ghost g: seq<Score>)
      requires arr != tempMergArr && arr.Length == tempMergArr.Length
      requires tempMergArr[..] == t && arr[..] == a
      requires 0 <= lowerIndex <= middle < higherIndex < |a|
      requires NonIncreasing(a[lowerIndex..middle + 1]) && NonIncreasing(a[middle + 1..higherIndex + 1])
      requires forall q :: lowerIndex <= q <= higherIndex ==> t[q] == a[q]
      modifies arr
      ensures arr[..] == g
      ensures MergeInv(g, t, a, lowerIndex, middle, higherIndex, i, j, k)
      ensures i <= middle ==> j == higherIndex + 1
    {
      MergeStart(a, t, lowerIndex, middle, higherIndex);
      g := a;
      i := lowerIndex;
      j := middle + 1;
      k := lowerIndex;
      while i <= middle && j <= higherIndex
        invariant tempMergArr[..] == t
        invariant |g| == arr.Length && forall q :: 0 <= q < arr.Length ==> arr[q] == g[q]
        invariant MergeInv(g, t, a, lowerIndex, middle, higherIndex, i, j, k)
      {
        ghost var g0, i0, j0, k0 := g, i, j, k;
        if Le(tempMergArr[j], tempMergArr[i]) {
          arr[k] := tempMergArr[i];
          g := g[k := t[i]];
          i := i + 1;
          k := k + 1;
          MergeTakeLeft(g0, t, a, lowerIndex, middle, higherIndex, i0, j0, k0, i, k);
        } else {
          arr[k] := tempMergArr[j];
          g := g[k := t[j]];
          j := j + 1;
          k := k + 1;
          MergeTakeRight(g0, t, a, lowerIndex, middle, higherIndex, i0, j0, k0, j, k);
        }
      }
      assert arr[..] == g;
    }

    /** The tail of MergeParts: copies what is left of the left run to the end of the range. */
    method MergeLeftRest(lowerIndex: int, middle: int, higherIndex: int, i0: int, j: int, k0: int,
                         ghost t: seq<Score>, ghost a: seq<Score>, ghost g0: seq<Score>)
        returns (ghost g: seq<Score>)
      requires arr != tempMergArr && tempMergArr[..] == t && arr[..] == g0
      requires MergeInv(g0, t, a, lowerIndex, middle, higherIndex, i0, j, k0)
      requires i0 <= middle ==> j == higherIndex + 1
      modifies arr
      ensures arr[..] == g
      ensures NonIncreasing(g[lowerIndex..higherIndex + 1])
      ensures multiset(g[lowerIndex..higherIndex + 1]) == multiset(a[lowerIndex..higherIndex + 1])
      ensures forall q :: 0 <= q < |g| && !(lowerIndex <= q <= higherIndex) ==> g[q] == a[q]
    {
      g := g0;
      var i, k := i0, k0;
      while i <= middle
        invariant tempMergArr[..] == t
        invariant |g| == arr.Length && forall q :: 0 <= q < arr.Length ==> arr[q] == g[q]
        invariant MergeInv(g, t, a, lowerIndex, middle, higherIndex, i, j, k)
        invariant i <= middle ==> j == higherIndex + 1
      {
        ghost var gp, ip, kp := g, i, k;
        arr[k] := tempMergArr[i];
        g := g[k := t[i]];
        k := k + 1;
        i := i + 1;
        MergeTakeLeft(gp, t, a, lowerIndex, middle, higherIndex, ip, j, kp, i, k);
      }
      assert arr[..] == g;
      MergeDone(g, t, a, lowerIndex, middle, higherIndex, i, j, k);
    }
  }

  /**
   * DoMergeSort's bookkeeping: `a0` before, `a1` after sorting the left half,
   * `a2` after sorting the right half.  Outside the range nothing moved, and the
   * sorted left half is still in place.
   */
  lemma HalvesFrame(a0: seq<Score>, a1: seq<Score>, a2: seq<Score>, lo: int, mid: int, hi: int)
    requires |a0| == |a1| == |a2| && 0 <= lo <= mid < hi < |a0|
    requires forall q :: 0 <= q < |a1| && !(lo <= q <= mid) ==> a1[q] == a0[q]
    requires forall q :: 0 <= q < |a2| && !(mid + 1 <= q <= hi) ==> a2[q] == a1[q]
    ensures forall q :: 0 <= q < |a2| && !(lo <= q <= hi) ==> a2[q] == a0[q]
    ensures a2[lo..mid + 1] == a1[lo..mid + 1]
  {
    SameRange(a2, a1, lo, mid + 1);
  }

  /** Two steps that each leave everything outside [lo, hi] alone leave it alone together. */
  lemma FrameTrans(a0: seq<Score>, a1: seq<Score>, a2: seq<Score>, lo: int, hi: int)
    requires |a0| == |a1| == |a2|
    requires forall q :: 0 <= q < |a1| && !(lo <= q <= hi) ==> a1[q] == a0[q]
    requires forall q :: 0 <= q < |a2| && !(lo <= q <= hi) ==> a2[q] == a1[q]
    ensures forall q :: 0 <= q < |a2| && !(lo <= q <= hi) ==> a2[q] == a0[q]
  {
  }

  /** Sorting the two halves one after the other keeps the multiset of the whole range. */
  lemma HalvesPermute(a0: seq<Score>, a1: seq<Score>, a2: seq<Score>, lo: int, mid: int, hi: int)
    requires |a0| == |a1| == |a2| && 0 <= lo <= mid < hi < |a0|
    requires multiset(a1[lo..mid + 1]) == multiset(a0[lo..mid + 1])
    requires a1[mid + 1..hi + 1] == a0[mid + 1..hi + 1]
    requires multiset(a2[mid + 1..hi + 1]) == multiset(a1[mid + 1..hi + 1])
    requires a2[lo..mid + 1] == a1[lo..mid + 1]
    ensures multiset(a2[lo..hi + 1]) == multiset(a0[lo..hi + 1])
  {
    SplitMultiset(a0, lo, mid + 1, hi + 1);
    SplitMultiset(a2, lo, mid + 1, hi + 1);
  }
}
