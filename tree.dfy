/**
 * The game-tree node of the bot: lazy expansion of a position's successor
 * states, the draw check against the repetition table, and the move reordering
 * done at the root between two deepening passes (sort the children by value,
 * drop repetition draws, put captures first).
 */
module Tree {
  import opened Wrappers
  import opened Scores
  import opened Chess
  import Sorting

  // ----- Capture-first partition -----

  /** A node as the capture partition sees it: its name and its position. */
  datatype Labelled = Labelled(name: string, state: nat)

  /** A move whose name holds an "x" is a capture. */
  predicate IsCapture(l: Labelled) {
    'x' in l.name
  }

  /** The captures of `ls`, in order. */
  function Captures(ls: seq<Labelled>): (r: seq<Labelled>)
    ensures forall k :: 0 <= k < |r| ==> IsCapture(r[k])
    decreases |ls|
  {
    if ls == [] then []
    else Captures(ls[..|ls| - 1]) + (if IsCapture(ls[|ls| - 1]) then [ls[|ls| - 1]] else [])
  }

  /** The non-captures of `ls`, in order. */
  function Quiet(ls: seq<Labelled>): (r: seq<Labelled>)
    ensures forall k :: 0 <= k < |r| ==> !IsCapture(r[k])
    decreases |ls|
  {
    if ls == [] then []
    else Quiet(ls[..|ls| - 1]) + (if IsCapture(ls[|ls| - 1]) then [] else [ls[|ls| - 1]])
  }

  /** putCaptureMoveOntop: the captures, then the other moves. */
  function CaptureFirst(ls: seq<Labelled>): seq<Labelled> {
    Captures(ls) + Quiet(ls)
  }

  function StatesOf(ls: seq<Labelled>): (r: seq<nat>)
    ensures |r| == |ls| && forall k :: 0 <= k < |ls| ==> r[k] == ls[k].state
  {
    seq(|ls|, k requires 0 <= k < |ls| => ls[k].state)
  }

  /** The partition is a permutation of its input. */
  lemma {:induction false} CaptureFirstPermutes(ls: seq<Labelled>)
    ensures multiset(CaptureFirst(ls)) == multiset(ls)
    decreases |ls|
  {
    if ls != [] {
      var init := ls[..|ls| - 1];
      CaptureFirstPermutes(init);
      assert ls == init + [ls[|ls| - 1]];
    }
  }

  /** No capture comes after a non-capture. */
  lemma CaptureFirstOrder(ls: seq<Labelled>)
    ensures forall p, q :: 0 <= p < q < |CaptureFirst(ls)| && IsCapture(CaptureFirst(ls)[q])
              ==> IsCapture(CaptureFirst(ls)[p])
  {
    var c, n := Captures(ls), Quiet(ls);
    assert forall q :: |c| <= q < |c| + |n| ==> CaptureFirst(ls)[q] == n[q - |c|];
  }

  lemma {:induction false} CapturesAppend(a: seq<Labelled>, b: seq<Labelled>)
    ensures Captures(a + b) == Captures(a) + Captures(b)
    ensures Quiet(a + b) == Quiet(a) + Quiet(b)
    decreases |b|
  {
    if b != [] {
      var init := b[..|b| - 1];
      CapturesAppend(a, init);
      assert (a + b)[..|a + b| - 1] == a + init;
    } else {
      assert a + b == a;
    }
  }

  lemma {:induction false} CapturesOfCaptures(ls: seq<Labelled>)
    ensures Captures(Captures(ls)) == Captures(ls)
    ensures Quiet(Captures(ls)) == []
    ensures Captures(Quiet(ls)) == []
    ensures Quiet(Quiet(ls)) == Quiet(ls)
    decreases |ls|
  {
    if ls != [] {
      var init := ls[..|ls| - 1];
      var last := ls[|ls| - 1];
      CapturesOfCaptures(init);
      if IsCapture(last) {
        CapturesAppend(Captures(init), [last]);
        assert Captures([last]) == [] + [last];
        CapturesAppend(Quiet(init), []);
      } else {
        CapturesAppend(Quiet(init), [last]);
        assert Quiet([last]) == [] + [last];
        CapturesAppend(Captures(init), []);
      }
    }
  }

  /**
   * The partition is stable: the captures keep their relative order, and so do
   * the other moves.
   */
  lemma CaptureFirstStable(ls: seq<Labelled>)
    ensures Captures(CaptureFirst(ls)) == Captures(ls)
    ensures Quiet(CaptureFirst(ls)) == Quiet(ls)
  {
    CapturesAppend(Captures(ls), Quiet(ls));
    CapturesOfCaptures(ls);
  }

  // ----- The reordering invariant -----

  ghost predicate InRange(idx: seq<nat>, n: int) {
    forall k :: 0 <= k < |idx| ==> idx[k] < n
  }

  ghost predicate Increasing(idx: seq<nat>) {
    forall p, q :: 0 <= p < q < |idx| ==> idx[p] < idx[q]
  }

  ghost predicate Distinct(idx: seq<nat>) {
    forall p, q :: 0 <= p < q < |idx| ==> idx[p] != idx[q]
  }

  /** The values at the given indices. */
  function Pick(vs: seq<Score>, idx: seq<nat>): (r: seq<Score>)
    requires InRange(idx, |vs|)
    ensures |r| == |idx| && forall k :: 0 <= k < |idx| ==> r[k] == vs[idx[k]]
  {
    seq(|idx|, k requires 0 <= k < |idx| => vs[idx[k]])
  }

  /**
   * The kept children, given by their indices `ks` among the original children
   * whose values are `vs`, are in non-increasing order of value, and children
   * with equal values keep their original relative order.
   */
  ghost predicate SortedStable(vs: seq<Score>, ks: seq<nat>)
    requires InRange(ks, |vs|)
  {
    forall p, q :: 0 <= p < q < |ks| ==>
      Le(vs[ks[q]], vs[ks[p]]) && (vs[ks[q]] == vs[ks[p]] ==> ks[p] < ks[q])
  }

  /** A kept draw can only be the last child. */
  ghost predicate DrawIsLast(ds: seq<bool>, ks: seq<nat>)
    requires InRange(ks, |ds|)
  {
    forall k :: 0 <= k < |ks| && ds[ks[k]] ==> ks[k] == |ds| - 1
  }

  /**
   * The last child is a draw, and so is every other child ranked at least as
   * high as it: one with a higher value, or with the same value, since every
   * other child comes earlier.
   */
  ghost predicate OnlyDrawsAhead(vs: seq<Score>, ds: seq<bool>)
    requires |ds| == |vs|
  {
    && |vs| > 0 && ds[|vs| - 1]
    && forall x :: 0 <= x < |vs| - 1 && Le(vs[|vs| - 1], vs[x]) ==> ds[x]
  }

  /**
   * Which children are kept, given their values `vs` and which ones are
   * repetition draws (`ds`): each child at most once, every non-draw, some
   * child whenever there were children, and a draw only in first place and
   * only when it is the last child. The last child is kept in first place
   * exactly when it is a draw ranked below draws alone (OnlyDrawsAhead): it is
   * then matched while nothing is kept, and otherwise a non-draw ranked ahead
   * of it has been kept already.
   */
  ghost predicate DrawPolicy(vs: seq<Score>, ds: seq<bool>, ks: seq<nat>)
    requires |ds| == |vs| && InRange(ks, |ds|)
  {
    && Distinct(ks)
    && (forall x :: 0 <= x < |ds| && !ds[x] ==> x in ks)
    && (forall k :: 1 <= k < |ks| ==> !ds[ks[k]])
    && DrawIsLast(ds, ks)
    && (|ds| > 0 <==> |ks| > 0)
    && (OnlyDrawsAhead(vs, ds) ==> ks[0] == |ds| - 1)
  }

  /**
   * `ks` lists the kept children, by index, as the reorder keeps them:
   * sorted stably and following the draw policy.
   */
  ghost predicate KeptInOrder(vs: seq<Score>, ds: seq<bool>, ks: seq<nat>) {
    |ds| == |vs| && InRange(ks, |vs|) && SortedStable(vs, ks) && DrawPolicy(vs, ds, ks)
  }

  /** Every kept child is ahead of every child still to be placed. */
  ghost predicate Ahead(vs: seq<Score>, ks: seq<nat>, rem: seq<nat>)
    requires InRange(ks, |vs|) && InRange(rem, |vs|)
  {
    forall k, r :: 0 <= k < |ks| && 0 <= r < |rem| ==>
      ks[k] != rem[r] && Le(vs[rem[r]], vs[ks[k]]) && (vs[rem[r]] == vs[ks[k]] ==> ks[k] < rem[r])
  }

  ghost predicate Covered(ds: seq<bool>, ks: seq<nat>, rem: seq<nat>) {
    forall x :: 0 <= x < |ds| && !ds[x] ==> x in ks || x in rem
  }

  ghost predicate DrawsFirst(ds: seq<bool>, ks: seq<nat>)
    requires InRange(ks, |ds|)
  {
    forall k :: 1 <= k < |ks| ==> !ds[ks[k]]
  }

  /**
   * The state of reorderGameTree's outer loop after `i` sorted values: `rem`
   * holds the original indices of the children not yet placed, in their order,
   * and `ks` the indices of the kept ones.
   */
  ghost predicate ReorderInv(vs: seq<Score>, ds: seq<bool>, sorted: seq<Score>, i: int,
                             rem: seq<nat>, ks: seq<nat>)
  {
    && |ds| == |vs| == |sorted| && 0 <= i <= |sorted| && |rem| == |sorted| - i
    && NonIncreasing(sorted)
    && InRange(rem, |vs|) && Increasing(rem) && InRange(ks, |vs|)
    && multiset(Pick(vs, rem)) == multiset(sorted[i..])
    && SortedStable(vs, ks) && Ahead(vs, ks, rem)
    && Covered(ds, ks, rem) && DrawsFirst(ds, ks) && DrawIsLast(ds, ks)
    && (|ks| == 0 && |vs| > 0 ==> |vs| - 1 in rem)
    && (OnlyDrawsAhead(vs, ds) && |vs| - 1 !in rem ==> |ks| > 0 && ks[0] == |vs| - 1)
  }

  function Range(n: nat): (r: seq<nat>)
    ensures |r| == n && forall k :: 0 <= k < n ==> r[k] == k
  {
    seq(n, k => k)
  }

  lemma ReorderStart(vs: seq<Score>, ds: seq<bool>, sorted: seq<Score>)
    requires |ds| == |vs| && NonIncreasing(sorted) && multiset(sorted) == multiset(vs)
    ensures ReorderInv(vs, ds, sorted, 0, Range(|vs|), [])
  {
    assert Pick(vs, Range(|vs|)) == vs;
    assert sorted[0..] == sorted;
    assert |sorted| == |vs| by {
      assert |multiset(sorted)| == |multiset(vs)|;
    }
    forall x | 0 <= x < |ds| && !ds[x]
      ensures x in Range(|vs|)
    {
      assert Range(|vs|)[x] == x;
    }
    if |vs| > 0 {
      assert Range(|vs|)[|vs| - 1] == |vs| - 1;
    }
  }

  /** A value among the sorted values after position i is at most the one at i. */
  lemma BelowHead(sorted: seq<Score>, i: int, v: Score)
    requires NonIncreasing(sorted) && 0 <= i < |sorted|
    requires v in multiset(sorted[i + 1..])
    ensures Le(v, sorted[i])
  {
    var q :| 0 <= q < |sorted[i + 1..]| && sorted[i + 1..][q] == v;
    assert sorted[i + 1 + q] == v;
  }

  lemma RemoveAt(s: seq<Score>, j: int)
    requires 0 <= j < |s|
    ensures multiset(s[..j] + s[j + 1..]) == multiset(s) - multiset{s[j]}
  {
    assert s == s[..j] + [s[j]] + s[j + 1..];
  }

  /** After the child at `j` is placed, the rest match the remaining sorted values. */
  lemma StepMultiset(vs: seq<Score>, sorted: seq<Score>, i: int, rem: seq<nat>, j: int, rem': seq<nat>)
    requires InRange(rem, |vs|) && 0 <= i < |sorted| && 0 <= j < |rem|
    requires multiset(Pick(vs, rem)) == multiset(sorted[i..]) && vs[rem[j]] == sorted[i]
    requires rem' == rem[..j] + rem[j + 1..]
    ensures InRange(rem', |vs|)
    ensures multiset(Pick(vs, rem')) == multiset(sorted[i + 1..])
  {
    var p := Pick(vs, rem);
    assert Pick(vs, rem') == p[..j] + p[j + 1..];
    RemoveAt(p, j);
    assert sorted[i..] == [sorted[i]] + sorted[i + 1..];
  }

  /** The placed child is ahead of every child still to be placed. */
  lemma StepAhead(vs: seq<Score>, sorted: seq<Score>, i: int, rem: seq<nat>, ks: seq<nat>,
                  j: int, rem': seq<nat>)
    requires NonIncreasing(sorted) && 0 <= i < |sorted|
    requires InRange(rem, |vs|) && Increasing(rem) && InRange(ks, |vs|) && 0 <= j < |rem|
    requires Ahead(vs, ks, rem) && vs[rem[j]] == sorted[i]
    requires forall r :: 0 <= r < j ==> vs[rem[r]] != sorted[i]
    requires rem' == rem[..j] + rem[j + 1..]
    requires InRange(rem', |vs|) && multiset(Pick(vs, rem')) == multiset(sorted[i + 1..])
    ensures Ahead(vs, ks + [rem[j]], rem')
  {
    var ks' := ks + [rem[j]];
    forall k, r | 0 <= k < |ks'| && 0 <= r < |rem'|
      ensures ks'[k] != rem'[r] && Le(vs[rem'[r]], vs[ks'[k]])
              && (vs[rem'[r]] == vs[ks'[k]] ==> ks'[k] < rem'[r])
    {
      var orig := if r < j then r else r + 1;
      assert rem'[r] == rem[orig];
      if k == |ks| {
        assert Pick(vs, rem')[r] == vs[rem'[r]];
        BelowHead(sorted, i, vs[rem'[r]]);
        assert orig != j;
        if orig > j {
          assert rem[j] < rem[orig];
        }
      }
    }
  }

  /** The placed child, when kept, keeps the kept list sorted and stable. */
  lemma StepSorted(vs: seq<Score>, rem: seq<nat>, ks: seq<nat>, j: int)
    requires InRange(rem, |vs|) && InRange(ks, |vs|) && 0 <= j < |rem|
    requires SortedStable(vs, ks) && Ahead(vs, ks, rem)
    ensures InRange(ks + [rem[j]], |vs|) && SortedStable(vs, ks + [rem[j]])
  {
    var ks' := ks + [rem[j]];
    forall p, q | 0 <= p < q < |ks'|
      ensures Le(vs[ks'[q]], vs[ks'[p]]) && (vs[ks'[q]] == vs[ks'[p]] ==> ks'[p] < ks'[q])
    {
      if q == |ks| {
        assert ks'[q] == rem[j] && ks'[p] == ks[p];
      }
    }
  }

  /** Removing one index keeps the remaining indices increasing. */
  lemma StepIncreasing(rem: seq<nat>, j: int, rem': seq<nat>)
    requires Increasing(rem) && 0 <= j < |rem| && rem' == rem[..j] + rem[j + 1..]
    ensures Increasing(rem')
  {
    forall p, q | 0 <= p < q < |rem'|
      ensures rem'[p] < rem'[q]
    {
      var op := if p < j then p else p + 1;
      var oq := if q < j then q else q + 1;
      assert rem'[p] == rem[op] && rem'[q] == rem[oq];
    }
  }

  /** Every non-draw is still kept or still to be placed. */
  lemma StepCovered(ds: seq<bool>, rem: seq<nat>, ks: seq<nat>, j: int, keep: bool,
                    rem': seq<nat>, ks': seq<nat>)
    requires 0 <= j < |rem| && rem[j] < |ds| && Covered(ds, ks, rem)
    requires keep || ds[rem[j]]
    requires rem' == rem[..j] + rem[j + 1..] && ks' == (if keep then ks + [rem[j]] else ks)
    ensures Covered(ds, ks', rem')
  {
    forall x | 0 <= x < |ds| && !ds[x]
      ensures x in ks' || x in rem'
    {
      if x !in ks {
        var r :| 0 <= r < |rem| && rem[r] == x;
        if r < j {
          assert rem'[r] == x;
        } else if r > j {
          assert rem'[r - 1] == x;
        }
      }
    }
  }

  /** One step of reorderGameTree's outer loop keeps the invariant. */
  lemma ReorderStep(vs: seq<Score>, ds: seq<bool>, sorted: seq<Score>, i: int, rem: seq<nat>,
                    ks: seq<nat>, j: int, keep: bool, i': int, rem': seq<nat>, ks': seq<nat>)
    requires ReorderInv(vs, ds, sorted, i, rem, ks)
    requires i < |sorted| && 0 <= j < |rem| && vs[rem[j]] == sorted[i]
    requires forall r :: 0 <= r < j ==> vs[rem[r]] != sorted[i]
    requires keep == KeepRule(ds[rem[j]], j, |rem|, |ks|)
    requires i' == i + 1 && rem' == rem[..j] + rem[j + 1..]
    requires ks' == if keep then ks + [rem[j]] else ks
    ensures ReorderInv(vs, ds, sorted, i', rem', ks')
  {
    StepMultiset(vs, sorted, i, rem, j, rem');
    StepIncreasing(rem, j, rem');
    StepCovered(ds, rem, ks, j, keep, rem', ks');
    StepDraws(vs, ds, rem, ks, j, keep, rem', ks');
    if keep {
      StepAhead(vs, sorted, i, rem, ks, j, rem');
      StepSorted(vs, rem, ks, j);
    } else {
      StepAheadDrop(vs, rem, ks, j, rem');
    }
  }

  /** While the last child waits to be placed, it is the last index in `rem`. */
  lemma LastWaits(rem: seq<nat>, n: int)
    requires InRange(rem, n) && Increasing(rem) && n - 1 in rem
    ensures |rem| > 0 && rem[|rem| - 1] == n - 1
  {
  }

  /**
   * One step keeps the draw rule: a kept draw is the last child, the last
   * child waits while nothing is kept, and once it is placed it leads when
   * only draws rank ahead of it.
   */
  lemma StepDraws(vs: seq<Score>, ds: seq<bool>, rem: seq<nat>, ks: seq<nat>, j: int, keep: bool,
                  rem': seq<nat>, ks': seq<nat>)
    requires |ds| == |vs| && InRange(rem, |vs|) && Increasing(rem) && InRange(ks, |vs|) && 0 <= j < |rem|
    requires Ahead(vs, ks, rem) && DrawIsLast(ds, ks)
    requires |ks| == 0 && |vs| > 0 ==> |vs| - 1 in rem
    requires OnlyDrawsAhead(vs, ds) && |vs| - 1 !in rem ==> |ks| > 0 && ks[0] == |vs| - 1
    requires keep == KeepRule(ds[rem[j]], j, |rem|, |ks|)
    requires rem' == rem[..j] + rem[j + 1..] && ks' == if keep then ks + [rem[j]] else ks
    ensures InRange(ks', |vs|) && DrawIsLast(ds, ks')
    ensures |ks'| == 0 && |vs| > 0 ==> |vs| - 1 in rem'
    ensures OnlyDrawsAhead(vs, ds) && |vs| - 1 !in rem' ==> |ks'| > 0 && ks'[0] == |vs| - 1
  {
    var n := |vs|;
    if |ks| == 0 {
      LastWaits(rem, n);
      if !keep {
        assert rem'[|rem'| - 1] == rem[|rem| - 1];
      }
    }
    if OnlyDrawsAhead(vs, ds) && n - 1 !in rem' && n - 1 in rem {
      LastWaits(rem, n);
    }
  }

  /** A dropped child leaves the kept ones ahead of the rest. */
  lemma StepAheadDrop(vs: seq<Score>, rem: seq<nat>, ks: seq<nat>, j: int, rem': seq<nat>)
    requires InRange(rem, |vs|) && InRange(ks, |vs|) && 0 <= j < |rem| && Ahead(vs, ks, rem)
    requires rem' == rem[..j] + rem[j + 1..]
    ensures InRange(rem', |vs|) && Ahead(vs, ks, rem')
  {
    forall k, r | 0 <= k < |ks| && 0 <= r < |rem'|
      ensures ks[k] != rem'[r] && Le(vs[rem'[r]], vs[ks[k]]) && (vs[rem'[r]] == vs[ks[k]] ==> ks[k] < rem'[r])
    {
      assert rem'[r] == rem[if r < j then r else r + 1];
    }
  }

  /** At the end of the outer loop the kept list has every promised property. */
  lemma ReorderDone(vs: seq<Score>, ds: seq<bool>, sorted: seq<Score>, rem: seq<nat>, ks: seq<nat>)
    requires ReorderInv(vs, ds, sorted, |sorted|, rem, ks)
    ensures rem == [] && InRange(ks, |vs|) && SortedStable(vs, ks) && DrawPolicy(vs, ds, ks)
  {
    assert |ks| > 0 ==> ks[0] < |ds|;
    forall p, q | 0 <= p < q < |ks|
      ensures ks[p] != ks[q]
    {
      if vs[ks[q]] == vs[ks[p]] {
        assert ks[p] < ks[q];
      }
    }
  }

  /** The `k`-th kept child exists and is a draw. */
  predicate KeptDraw(ds: seq<bool>, ks: seq<nat>, k: int) {
    0 <= k < |ks| && ks[k] < |ds| && ds[ks[k]]
  }

  /** If every child is a draw, exactly one child is kept: the last one. */
  lemma AllDrawsKeepOne(vs: seq<Score>, ds: seq<bool>, ks: seq<nat>)
    requires |ds| == |vs| && InRange(ks, |ds|) && DrawPolicy(vs, ds, ks)
    requires |ds| > 0 && forall x :: 0 <= x < |ds| ==> ds[x]
    ensures ks == [|ds| - 1]
  {
    assert OnlyDrawsAhead(vs, ds);
    assert 1 < |ks| ==> !KeptDraw(ds, ks, 1);
  }

  /** A kept draw is the last child, kept first, and only draws rank ahead of it. */
  lemma KeptDrawLeads(vs: seq<Score>, ds: seq<bool>, ks: seq<nat>, k: int)
    requires |ds| == |vs| && InRange(ks, |vs|)
    requires SortedStable(vs, ks) && DrawPolicy(vs, ds, ks)
    requires 0 <= k < |ks| && ds[ks[k]]
    ensures k == 0 && ks[0] == |vs| - 1 && OnlyDrawsAhead(vs, ds)
  {
    assert KeptDraw(ds, ks, k);
  }

  /**
   * The first kept child leads: no child that is not a draw has a higher
   * value, and one with the same value comes no earlier.
   */
  lemma KeptFirstLeads(vs: seq<Score>, ds: seq<bool>, ks: seq<nat>)
    requires |ds| == |vs| && InRange(ks, |vs|) && ks != []
    requires SortedStable(vs, ks) && DrawPolicy(vs, ds, ks)
    ensures forall x :: 0 <= x < |vs| && !ds[x] ==> Le(vs[x], vs[ks[0]]) && (vs[x] == vs[ks[0]] ==> ks[0] <= x)
  {
    forall x | 0 <= x < |vs| && !ds[x]
      ensures Le(vs[x], vs[ks[0]]) && (vs[x] == vs[ks[0]] ==> ks[0] <= x)
    {
      var j :| 0 <= j < |ks| && ks[j] == x;
      if j > 0 {
        assert Le(vs[ks[j]], vs[ks[0]]) && (vs[ks[j]] == vs[ks[0]] ==> ks[0] < ks[j]);
      }
    }
  }

  /**
   * A child kept in one list that is sorted stably and follows the draw
   * policy is kept in every other such list: a non-draw always is, and a kept
   * draw is the last child in first place, which forces OnlyDrawsAhead.
   */
  lemma KeptInBoth(vs: seq<Score>, ds: seq<bool>, a: seq<nat>, b: seq<nat>)
    requires |ds| == |vs| && InRange(a, |vs|) && InRange(b, |vs|)
    requires SortedStable(vs, a) && DrawPolicy(vs, ds, a) && DrawPolicy(vs, ds, b)
    ensures forall x :: x in a ==> x in b
  {
    forall x | x in a
      ensures x in b
    {
      var p :| 0 <= p < |a| && a[p] == x;
      if ds[x] {
        KeptDrawLeads(vs, ds, a, p);
      }
    }
  }

  /** Two lists holding the same children are both empty or both not. */
  lemma BothEmpty(a: seq<nat>, b: seq<nat>)
    requires forall x :: x in a <==> x in b
    ensures a == [] <==> b == []
  {
    if a != [] {
      assert a[0] in a;
    }
    if b != [] {
      assert b[0] in b;
    }
  }

  /** In a list of distinct children, the tail holds all but the first. */
  lemma TailMembers(a: seq<nat>, x: nat)
    requires Distinct(a) && a != []
    ensures x in a[1..] <==> x in a && x != a[0]
  {
    if x in a && x != a[0] {
      var r :| 0 <= r < |a| && a[r] == x;
      assert a[1..][r - 1] == x;
    }
    if x in a[1..] {
      var r :| 0 <= r < |a[1..]| && a[1..][r] == x;
      assert a[r + 1] == x;
    }
  }

  /** Two stably sorted lists, each holding the other's first child, start alike. */
  lemma SameHead(vs: seq<Score>, a: seq<nat>, b: seq<nat>)
    requires InRange(a, |vs|) && InRange(b, |vs|) && a != [] && b != []
    requires SortedStable(vs, a) && SortedStable(vs, b) && a[0] in b && b[0] in a
    ensures a[0] == b[0]
  {
    var q :| 0 <= q < |b| && b[q] == a[0];
    var p :| 0 <= p < |a| && a[p] == b[0];
  }

  /** The tail of a stably sorted list of distinct children is one too. */
  lemma SortedTail(vs: seq<Score>, a: seq<nat>)
    requires InRange(a, |vs|) && SortedStable(vs, a) && Distinct(a) && a != []
    ensures InRange(a[1..], |vs|) && SortedStable(vs, a[1..]) && Distinct(a[1..])
  {
    assert forall p :: 0 <= p < |a| - 1 ==> a[1..][p] == a[p + 1];
  }

  /** Two lists of distinct children, each sorted stably, that hold the same children are equal. */
  lemma {:induction false} SameSortedEqual(vs: seq<Score>, a: seq<nat>, b: seq<nat>)
    requires InRange(a, |vs|) && InRange(b, |vs|)
    requires SortedStable(vs, a) && Distinct(a) && SortedStable(vs, b) && Distinct(b)
    requires forall x :: x in a <==> x in b
    ensures a == b
    decreases |a|
  {
    BothEmpty(a, b);
    if a != [] {
      assert a[0] in a && b[0] in b;
      SameHead(vs, a, b);
      forall x
        ensures x in a[1..] <==> x in b[1..]
      {
        TailMembers(a, x);
        TailMembers(b, x);
      }
      SortedTail(vs, a);
      SortedTail(vs, b);
      SameSortedEqual(vs, a[1..], b[1..]);
      assert a == [a[0]] + a[1..] && b == [b[0]] + b[1..];
    }
  }

  /**
   * The sort order and the draw policy leave no choice: any kept list that is
   * sorted stably and follows the draw policy is the one reorderGameTree's
   * loop keeps, started from a sorted permutation of the values.
   */
  lemma PolicyIsReorder(vs: seq<Score>, ds: seq<bool>, sorted: seq<Score>, ks: seq<nat>)
    requires |ds| == |vs| && NonIncreasing(sorted) && multiset(sorted) == multiset(vs)
    requires InRange(ks, |vs|) && SortedStable(vs, ks) && DrawPolicy(vs, ds, ks)
    ensures ks == Reordered(vs, ds, sorted, 0, Range(|vs|), []).1
  {
    var r := Reordered(vs, ds, sorted, 0, Range(|vs|), []).1;
    ReorderedFromStart(vs, ds, sorted);
    KeptInBoth(vs, ds, ks, r);
    KeptInBoth(vs, ds, r, ks);
    SameSortedEqual(vs, ks, r);
  }

  lemma RemoveInRange(idx: seq<nat>, j: int, n: int)
    requires InRange(idx, n) && 0 <= j < |idx|
    ensures InRange(idx[..j] + idx[j + 1..], n)
  {
    var idx' := idx[..j] + idx[j + 1..];
    forall k | 0 <= k < |idx'|
      ensures idx'[k] < n
    {
      if k >= j {
        assert idx'[k] == idx[k + 1];
      }
    }
  }

  /** The nodes at the given indices. */
  function Nodes(ns: seq<GameTree>, idx: seq<nat>): (r: seq<GameTree>)
    requires InRange(idx, |ns|)
    ensures |r| == |idx| && forall k :: 0 <= k < |idx| ==> r[k] == ns[idx[k]]
  {
    seq(|idx|, k requires 0 <= k < |idx| => ns[idx[k]])
  }

  lemma NodesRemove(ns: seq<GameTree>, idx: seq<nat>, j: int)
    requires InRange(idx, |ns|) && 0 <= j < |idx|
    ensures InRange(idx[..j] + idx[j + 1..], |ns|)
    ensures Nodes(ns, idx[..j] + idx[j + 1..]) == Nodes(ns, idx)[..j] + Nodes(ns, idx)[j + 1..]
  {
    RemoveInRange(idx, j, |ns|);
    var a := Nodes(ns, idx[..j] + idx[j + 1..]);
    var b := Nodes(ns, idx)[..j] + Nodes(ns, idx)[j + 1..];
    forall k | 0 <= k < |a|
      ensures a[k] == b[k]
    {
      if k >= j {
        assert (idx[..j] + idx[j + 1..])[k] == idx[k + 1];
      }
    }
  }

  lemma NodesAppend(ns: seq<GameTree>, idx: seq<nat>, x: nat)
    requires InRange(idx, |ns|) && x < |ns|
    ensures InRange(idx + [x], |ns|) && Nodes(ns, idx + [x]) == Nodes(ns, idx) + [ns[x]]
  {
    assert Nodes(ns, idx + [x]) == Nodes(ns, idx) + [ns[x]];
  }

  /** The first remaining child, in order, whose value is `v`; |rem| if none. */
  function FirstMatch(vs: seq<Score>, rem: seq<nat>, v: Score): (j: nat)
    requires InRange(rem, |vs|)
    ensures j <= |rem|
    ensures j < |rem| ==> vs[rem[j]] == v
    ensures forall r :: 0 <= r < j ==> vs[rem[r]] != v
    decreases |rem|
  {
    if rem == [] then 0
    else if vs[rem[0]] == v then 0
    else 1 + FirstMatch(vs, rem[1..], v)
  }

  /**
   * Whether reorderGameTree keeps the child found at `j` among `left` children
   * still to be placed: always when it is not a draw, and a draw only when it
   * is the last of them and nothing is kept yet.
   */
  predicate KeepRule(draw: bool, j: int, left: int, keptCount: int) {
    !draw || (j == left - 1 && keptCount == 0)
  }

  /**
   * The name a placed node ends with in reorderGameTree as written: only the
   * draw check names a node, and it names non-draws only.
   */
  function NameAsWritten(name: Option<string>, key: string, draw: bool): Option<string> {
    if draw then name else Some(key)
  }

  /**
   * On the reorder alone, a draw can lead although a non-draw exists: with a
   * non-draw worth 3 ahead of a draw worth 5, the draw is matched first, is
   * then the last child in the list while nothing is kept, and is kept in
   * first place. After a search a draw is worth -infinity, or +infinity when
   * the move mates (Search.DrawScored), so this input does not arise there.
   */
  lemma DrawCanLead()
    ensures Reordered([Fin(3.0), Fin(5.0)], [false, true], [Fin(5.0), Fin(3.0)], 0, [0, 1], []) == ([], [1, 0])
  {
    var vs, ds, sorted := [Fin(3.0), Fin(5.0)], [false, true], [Fin(5.0), Fin(3.0)];
    assert FirstMatch(vs, [0, 1], Fin(5.0)) == 1;
    assert KeepRule(ds[1], 1, 2, 0);
    assert [0, 1][..1] + [0, 1][2..] == [0] && [] + [1] == [1];
    assert Step(vs, ds, Fin(5.0), [0, 1], []) == ([0], [1]);
    assert FirstMatch(vs, [0], Fin(3.0)) == 0;
    assert [0][..0] + [0][1..] == [] && [1] + [0] == [1, 0];
    assert Step(vs, ds, Fin(3.0), [0], [1]) == ([], [1, 0]);
    assert Reordered(vs, ds, sorted, 2, [], [1, 0]) == ([], [1, 0]);
  }

  /**
   * One pass of reorderGameTree's outer loop, on indices: the first remaining
   * child with value `v` leaves `rem`, and joins `ks` unless it is a draw
   * (`ds`) that is not the last child left while nothing is kept yet. Nothing
   * changes when no remaining child has value `v`.
   */
  ghost function Step(vs: seq<Score>, ds: seq<bool>, v: Score, rem: seq<nat>, ks: seq<nat>): (r: (seq<nat>, seq<nat>))
    requires InRange(rem, |vs|) && |ds| == |vs|
    ensures InRange(r.0, |vs|) && (InRange(ks, |vs|) ==> InRange(r.1, |vs|))
  {
    var j := FirstMatch(vs, rem, v);
    if j == |rem| then (rem, ks)
    else
      var keep := KeepRule(ds[rem[j]], j, |rem|, |ks|);
      RemoveInRange(rem, j, |vs|);
      (rem[..j] + rem[j + 1..], if keep then ks + [rem[j]] else ks)
  }

  /** Step, given where the first remaining child with value `v` is. */
  lemma StepAt(vs: seq<Score>, ds: seq<bool>, v: Score, rem: seq<nat>, ks: seq<nat>, j: int)
    requires InRange(rem, |vs|) && |ds| == |vs| && j == FirstMatch(vs, rem, v)
    ensures j == |rem| ==> Step(vs, ds, v, rem, ks) == (rem, ks)
    ensures j < |rem| ==> Step(vs, ds, v, rem, ks) == (rem[..j] + rem[j + 1..],
              if KeepRule(ds[rem[j]], j, |rem|, |ks|) then ks + [rem[j]] else ks)
  {
  }

  /**
   * reorderGameTree's outer loop from its `i`th sorted value on: the children
   * still to be placed and the kept ones it ends with.
   */
  ghost function Reordered(vs: seq<Score>, ds: seq<bool>, sorted: seq<Score>, i: nat,
                           rem: seq<nat>, ks: seq<nat>): (seq<nat>, seq<nat>)
    requires InRange(rem, |vs|) && |ds| == |vs|
    decreases |sorted| - i
  {
    if i >= |sorted| then (rem, ks)
    else
      var r := Step(vs, ds, sorted[i], rem, ks);
      Reordered(vs, ds, sorted, i + 1, r.0, r.1)
  }

  /** A value still to be placed is the value of some child still to be placed. */
  lemma PresentValue(vs: seq<Score>, sorted: seq<Score>, i: int, rem: seq<nat>)
    requires InRange(rem, |vs|) && 0 <= i < |sorted|
    requires multiset(Pick(vs, rem)) == multiset(sorted[i..])
    ensures exists r :: 0 <= r < |rem| && vs[rem[r]] == sorted[i]
  {
    assert sorted[i..][0] == sorted[i];
    assert sorted[i] in multiset(Pick(vs, rem));
  }

  /**
   * Started from a sorted permutation of the values, the loop places every
   * child, and the kept ones are sorted stably and follow the draw policy.
   */
  lemma {:induction false} ReorderedSound(vs: seq<Score>, ds: seq<bool>, sorted: seq<Score>, i: nat,
                                          rem: seq<nat>, ks: seq<nat>)
    requires ReorderInv(vs, ds, sorted, i, rem, ks)
    ensures Reordered(vs, ds, sorted, i, rem, ks).0 == []
    ensures InRange(Reordered(vs, ds, sorted, i, rem, ks).1, |vs|)
    ensures SortedStable(vs, Reordered(vs, ds, sorted, i, rem, ks).1)
    ensures DrawPolicy(vs, ds, Reordered(vs, ds, sorted, i, rem, ks).1)
    decreases |sorted| - i
  {
    if i == |sorted| {
      ReorderDone(vs, ds, sorted, rem, ks);
    } else {
      PresentValue(vs, sorted, i, rem);
      var j := FirstMatch(vs, rem, sorted[i]);
      var keep := KeepRule(ds[rem[j]], j, |rem|, |ks|);
      var rem' := rem[..j] + rem[j + 1..];
      var ks' := if keep then ks + [rem[j]] else ks;
      assert Step(vs, ds, sorted[i], rem, ks) == (rem', ks');
      ReorderStep(vs, ds, sorted, i, rem, ks, j, keep, i + 1, rem', ks');
      ReorderedSound(vs, ds, sorted, i + 1, rem', ks');
    }
  }

  /**
   * Started from all children and a sorted permutation of their values, the
   * loop places every child, and the kept ones are sorted stably and follow
   * the draw policy.
   */
  lemma ReorderedFromStart(vs: seq<Score>, ds: seq<bool>, sorted: seq<Score>)
    requires |ds| == |vs| && NonIncreasing(sorted) && multiset(sorted) == multiset(vs)
    ensures Reordered(vs, ds, sorted, 0, Range(|vs|), []).0 == []
    ensures InRange(Reordered(vs, ds, sorted, 0, Range(|vs|), []).1, |vs|)
    ensures SortedStable(vs, Reordered(vs, ds, sorted, 0, Range(|vs|), []).1)
    ensures DrawPolicy(vs, ds, Reordered(vs, ds, sorted, 0, Range(|vs|), []).1)
  {
    ReorderStart(vs, ds, sorted);
    ReorderedSound(vs, ds, sorted, 0, Range(|vs|), []);
  }

  // ----- The node -----

  /** The values of a list of nodes. */
  ghost function ValuesOf(ns: seq<GameTree>): (r: seq<Score>)
    reads ns
    ensures |r| == |ns| && forall k :: 0 <= k < |ns| ==> r[k] == ns[k].value
  {
    seq(|ns|, k requires 0 <= k < |ns| reads ns => ns[k].value)
  }

  /** Which nodes of a list the repetition table marks as draws. */
  ghost function DrawsOf(ns: seq<GameTree>, table: Table): (r: seq<bool>)
    ensures |r| == |ns| && forall k :: 0 <= k < |ns| ==> r[k] == IsRepetition(table, Some(ns[k].key))
  {
    seq(|ns|, k requires 0 <= k < |ns| => IsRepetition(table, Some(ns[k].key)))
  }

  /** A node labelled with its fingerprint, as the capture partition reads it. */
  ghost function Label(n: GameTree): Labelled {
    Labelled(n.key, n.state)
  }

  /** The kept nodes, given by their indices, labelled with their fingerprints. */
  ghost function LabelsOf(ns: seq<GameTree>, ks: seq<nat>): (r: seq<Labelled>)
    requires InRange(ks, |ns|)
    ensures |r| == |ks| && forall k :: 0 <= k < |ks| ==> r[k] == Label(ns[ks[k]])
  {
    seq(|ks|, k requires 0 <= k < |ks| => Label(ns[ks[k]]))
  }

  /** A list of nodes labelled with the names they carry. */
  ghost function NamedLabels(ns: seq<GameTree>): (r: seq<Labelled>)
    reads ns
    requires forall k :: 0 <= k < |ns| ==> ns[k].stateName.Some?
    ensures |r| == |ns| && forall k :: 0 <= k < |ns| ==> r[k] == Labelled(ns[k].stateName.value, ns[k].state)
  {
    seq(|ns|, k requires 0 <= k < |ns| && ns[k].stateName.Some? reads ns =>
      Labelled(ns[k].stateName.value, ns[k].state))
  }

  /** Kept nodes that carry their fingerprints as names are labelled by them. */
  lemma NamedAreLabels(ns: seq<GameTree>, ks: seq<nat>, kept: seq<GameTree>)
    requires InRange(ks, |ns|) && kept == Nodes(ns, ks)
    requires forall k :: 0 <= k < |kept| ==> kept[k].stateName == Some(kept[k].key)
    ensures NamedLabels(kept) == LabelsOf(ns, ks)
  {
    assert forall k :: 0 <= k < |ks| ==> NamedLabels(kept)[k] == LabelsOf(ns, ks)[k];
  }

  /** The states queued again after a reorder are states of kept children. */
  lemma KeptStatesAreSuccessors(ns: seq<GameTree>, ks: seq<nat>, succ: seq<nat>)
    requires InRange(ks, |ns|)
    requires forall k :: 0 <= k < |ns| ==> ns[k].state in succ
    ensures forall s :: s in StatesOf(CaptureFirst(LabelsOf(ns, ks))) ==> s in succ
  {
    var ls := LabelsOf(ns, ks);
    CaptureFirstPermutes(ls);
    forall s | s in StatesOf(CaptureFirst(ls))
      ensures s in succ
    {
      var k :| 0 <= k < |CaptureFirst(ls)| && StatesOf(CaptureFirst(ls))[k] == s;
      assert CaptureFirst(ls)[k] in multiset(ls);
      var m :| 0 <= m < |ls| && ls[m] == CaptureFirst(ls)[k];
      assert s == ns[ks[m]].state;
    }
  }

  /**
   * reorderGameTree as written on a root whose only move leads to a position
   * seen twice: the child is kept as the last resort, but the draw check
   * never named it, so the node handed to putCaptureMoveOntop has no name.
   */
  method FallbackDrawUnnamed(game: Game, s: nat, table: Table) returns (kept: seq<GameTree>)
    requires WellFormed(game) && s < |game| && |game[s].successors| == 1
    requires IsDraw(table, game[game[s].successors[0]])
    ensures |kept| == 1 && kept[0].state == game[s].successors[0] && kept[0].stateName == None
  {
    var root := new GameTree(game, s, null);
    var node := root.GetNextChild();
    ghost var keep;
    var best;
    kept, best, keep := root.PlaceAtAsWritten(0, node, table, [], null, IsRepetition(table, Some(node.key)));
  }

  class GameTree {
    /** The game the position belongs to, and the position's id in it. */
    const game: Game
    const state: nat
    /** The node this one was expanded from; null at the root. */
    const parent: GameTree?
    /** The expanded children; only the root keeps them. */
    var children: seq<GameTree>
    /** The successor states not yet expanded, in the order they will be. */
    var nextStates: seq<nat>
    var value: Score
    /** The fingerprint, once the draw check has stored it. */
    var stateName: Option<string>
    /** The fingerprint of the node's position, fixed when the node is made. */
    ghost const key: string

    ghost predicate Placed() {
      WellFormed(game) && state < |game|
    }

    function Position(): Position
      requires Placed()
    {
      game[state]
    }

    /** The node lies in a well-formed game and `key` is its position's fingerprint. */
    ghost predicate Keyed() {
      Placed() && key == Fingerprint(Position().text)
    }

    /**
     * The pending states and the children are successors of this node's
     * position, and the children were expanded from this node.
     */
    ghost predicate Valid()
      reads this
    {
      && Placed()
      && (forall s :: s in nextStates ==> s in game[state].successors)
      && (forall c :: c in children ==> c.game == game && c.parent == this && c.state in game[state].successors && c.Keyed())
    }

    /** A node for `state`, whose pending states are all its successors. */
    constructor (game: Game, state: nat, parent: GameTree?)
      requires WellFormed(game) && state < |game|
      ensures this.game == game && this.state == state && this.parent == parent
      ensures children == [] && nextStates == game[state].successors
      ensures value == Fin(0.0) && stateName == None
      ensures Valid() && Keyed()
    {
      this.game := game;
      this.state := state;
      this.parent := parent;
      this.key := Fingerprint(game[state].text);
      this.children := [];
      this.nextStates := game[state].successors;
      this.value := Fin(0.0);
      this.stateName := None;
    }

    /** hasNextChild: some successor state is still pending. */
    function HasNextChild(): (r: bool)
      reads this
      ensures r <==> |nextStates| > 0
    {
      nextStates != []
    }

    /**
     * getNextChild: consumes the first pending state and returns a new node for
     * it; only the root records the new node among its children.
     */
    method GetNextChild() returns (child: GameTree)
      requires Valid() && nextStates != []
      modifies this`children, this`nextStates
      ensures Valid() && fresh(child) && child.Valid() && child.Keyed()
      ensures child.game == game && child.state == old(nextStates[0]) && child.parent == this
      ensures child.children == [] && child.nextStates == game[child.state].successors
      ensures child.value == Fin(0.0) && child.stateName == None
      ensures nextStates == old(nextStates[1..])
      ensures children == if parent == null then old(children) + [child] else old(children)
    {
      var next := nextStates[0];
      nextStates := nextStates[1..];
      assert next in game[state].successors;
      child := new GameTree(game, next, this);
      if parent == null {
        children := children + [child];
      }
    }

    /**
     * checkDrawState: true exactly when the node's fingerprint was seen twice.
     * Only when it is not a draw does the node get its fingerprint as its name.
     */
    method CheckDrawState(nodeToCheck: GameTree, table: Table) returns (r: bool)
      requires nodeToCheck.Keyed()
      modifies nodeToCheck`stateName
      ensures r == IsDraw(table, nodeToCheck.Position()) == IsRepetition(table, Some(nodeToCheck.key))
      ensures nodeToCheck.stateName == if r then old(nodeToCheck.stateName) else Some(nodeToCheck.key)
    {
      var name := Some(Fingerprint(nodeToCheck.Position().text));
      if name in table && table[name] == 2 {
        return true;
      }
      nodeToCheck.stateName := name;
      return false;
    }

    /** The search of reorderGameTree's inner loop: the first child with value `v`. */
    method IndexOfValue(v: Score) returns (j: int)
      ensures 0 <= j <= |children|
      ensures j < |children| ==> children[j].value == v
      ensures forall r :: 0 <= r < j ==> children[r].value != v
    {
      j := 0;
      while j < |children| && children[j].value != v
        invariant 0 <= j <= |children|
        invariant forall r :: 0 <= r < j ==> children[r].value != v
      {
        j := j + 1;
      }
    }

    /**
     * reorderGameTree: sorts the children by value, highest first, keeps every
     * child that is not a repetition draw (and a draw only as DrawPolicy
     * says), and queues the kept children's states again, captures first.
     * `ks` lists the kept children by their original index, in the order
     * chosen. The best node is the first one kept. The kept children get
     * their fingerprints as names; a draw kept as a last resort gets its name
     * here as well (see the finding in README).
     */
    method ReorderGameTree(table: Table) returns (best: GameTree?, ghost ks: seq<nat>)
      requires Valid()
      modifies this`children, this`nextStates, children
      ensures Valid() && children == []
      ensures KeptInOrder(old(ValuesOf(children)), DrawsOf(old(children), table), ks)
      ensures best == if ks == [] then null else old(children)[ks[0]]
      ensures forall k :: 0 <= k < |ks| ==> old(children)[ks[k]].stateName == Some(old(children)[ks[k]].key)
      ensures nextStates == StatesOf(CaptureFirst(LabelsOf(old(children), ks)))
    {
      ghost var c0 := children;
      var sortedNodeList;
      sortedNodeList, best, ks := SortAndPlace(table);
      QueueKept(sortedNodeList, c0, ks);
    }

    /**
     * The end of reorderGameTree: the kept nodes' states, captures first,
     * become the pending states.
     */
    method QueueKept(sortedNodeList: seq<GameTree>, ghost c0: seq<GameTree>, ghost ks: seq<nat>)
      requires Placed() && InRange(ks, |c0|) && sortedNodeList == Nodes(c0, ks)
      requires forall k :: 0 <= k < |sortedNodeList| ==> sortedNodeList[k].stateName == Some(sortedNodeList[k].key)
      requires forall k :: 0 <= k < |c0| ==> c0[k].state in game[state].successors
      modifies this`nextStates
      ensures nextStates == StatesOf(CaptureFirst(LabelsOf(c0, ks)))
      ensures forall s :: s in nextStates ==> s in game[state].successors
    {
      var sortedStateList := PutCaptureMoveOntop(sortedNodeList);
      NamedAreLabels(c0, ks, sortedNodeList);
      nextStates := sortedStateList;
      KeptStatesAreSuccessors(c0, ks, game[state].successors);
    }

    /**
     * reorderGameTree up to the capture partition: the children's values
     * sorted, then every child placed. The kept nodes, in order, carry their
     * fingerprints as names.
     */
    method SortAndPlace(table: Table) returns (sortedNodeList: seq<GameTree>, best: GameTree?, ghost ks: seq<nat>)
      requires forall c :: c in children ==> c.Keyed()
      modifies this`children, children
      ensures children == []
      ensures KeptInOrder(old(ValuesOf(children)), DrawsOf(old(children), table), ks)
      ensures sortedNodeList == Nodes(old(children), ks)
      ensures best == if ks == [] then null else old(children)[ks[0]]
      ensures forall k :: 0 <= k < |sortedNodeList| ==> sortedNodeList[k].stateName == Some(sortedNodeList[k].key)
      ensures forall k :: 0 <= k < |ks| ==> old(children)[ks[k]].stateName == Some(old(children)[ks[k]].key)
    {
      ghost var c0 := children;
      ghost var vs := ValuesOf(children);
      ghost var ds := DrawsOf(children, table);
      var valueArray := SortedValues(vs);
      ghost var sorted := valueArray[..];
      ReorderedFromStart(vs, ds, sorted);
      ghost var nodes := set n | n in c0;
      sortedNodeList, best, ks := PlaceAll(valueArray, table, c0, vs, ds, nodes);
      assert valueArray[..] == sorted;
    }

    /**
     * The first part of reorderGameTree: the children's values, copied into an
     * array and merge-sorted into descending order.
     */
    method SortedValues(ghost vs: seq<Score>) returns (valueArray: array<Score>)
      requires vs == ValuesOf(children)
      ensures fresh(valueArray)
      ensures valueArray.Length == |vs|
      ensures NonIncreasing(valueArray[..]) && multiset(valueArray[..]) == multiset(vs)
    {
      var mySort := new Sorting.MergeSorter();
      valueArray := new Score[|children|];
      var i := 0;
      while i < |children|
        invariant 0 <= i <= |children|
        invariant forall k :: 0 <= k < i ==> valueArray[k] == vs[k]
        modifies valueArray
      {
        valueArray[i] := children[i].value;
        i := i + 1;
      }
      assert valueArray[..] == vs;
      mySort.Sort(valueArray);
    }

    /**
     * The outer loop of reorderGameTree: for each sorted value in turn, the
     * first remaining child with that value is placed (kept or dropped) and
     * leaves the children. `vs` and `ds` are the original children's values
     * and draw flags; the loop follows Reordered.
     */
    method PlaceAll(valueArray: array<Score>, table: Table, ghost c0: seq<GameTree>,
                    ghost vs: seq<Score>, ghost ds: seq<bool>, ghost nodes: set<GameTree>)
      returns (sortedNodeList: seq<GameTree>, best: GameTree?, ghost ks: seq<nat>)
      requires children == c0 && |vs| == |ds| == |c0|
      requires forall x :: 0 <= x < |c0| ==> c0[x] in nodes && c0[x].value == vs[x]
      requires forall x {:trigger c0[x].Keyed()} :: 0 <= x < |c0| ==> c0[x].Keyed()
      requires forall x {:trigger ds[x]} :: 0 <= x < |c0| ==> ds[x] == IsRepetition(table, Some(c0[x].key))
      modifies this`children, nodes
      ensures InRange(ks, |c0|) && ks == Reordered(vs, ds, valueArray[..], 0, Range(|c0|), []).1
      ensures |children| == |Reordered(vs, ds, valueArray[..], 0, Range(|c0|), []).0|
      ensures sortedNodeList == Nodes(c0, ks)
      ensures forall k :: 0 <= k < |sortedNodeList| ==> sortedNodeList[k].stateName == Some(sortedNodeList[k].key)
      ensures best == if ks == [] then null else c0[ks[0]]
    {
      ghost var sorted := valueArray[..];
      ghost var result := Reordered(vs, ds, sorted, 0, Range(|c0|), []);
      best := null;
      sortedNodeList := [];
      ghost var rem := Range(|c0|);
      assert Nodes(c0, rem) == c0;
      ks := [];
      var i := 0;
      while i < valueArray.Length
        invariant 0 <= i <= valueArray.Length && valueArray[..] == sorted
        invariant InRange(rem, |vs|) && InRange(ks, |c0|) && Reordered(vs, ds, sorted, i, rem, ks) == result
        invariant children == Nodes(c0, rem)
        invariant forall x :: 0 <= x < |c0| ==> c0[x].value == vs[x]
        invariant sortedNodeList == Nodes(c0, ks)
        invariant forall k :: 0 <= k < |sortedNodeList| ==> sortedNodeList[k].stateName == Some(sortedNodeList[k].key)
        invariant best == if ks == [] then null else c0[ks[0]]
      {
        sortedNodeList, best := PlaceNext(valueArray[i], table, sortedNodeList, best, c0, vs, ds, nodes, rem, ks);
        rem, ks := Step(vs, ds, sorted[i], rem, ks).0, Step(vs, ds, sorted[i], rem, ks).1;
        i := i + 1;
      }
    }

    /**
     * The body of reorderGameTree's outer loop for the sorted value `v`: the
     * inner loop finds the first remaining child with that value, if any, and
     * it is placed. `rem` and `ks` index the remaining and the kept children
     * in `c0`, and move on as Step says.
     */
    method PlaceNext(v: Score, table: Table, sortedNodeList: seq<GameTree>, best: GameTree?,
                     ghost c0: seq<GameTree>, ghost vs: seq<Score>, ghost ds: seq<bool>,
                     ghost nodes: set<GameTree>, ghost rem: seq<nat>, ghost ks: seq<nat>)
      returns (kept: seq<GameTree>, newBest: GameTree?)
      requires |vs| == |ds| == |c0| && InRange(rem, |vs|) && InRange(ks, |c0|)
      requires children == Nodes(c0, rem) && sortedNodeList == Nodes(c0, ks)
      requires forall x :: 0 <= x < |c0| ==> c0[x] in nodes && c0[x].value == vs[x]
      requires forall x {:trigger c0[x].Keyed()} :: 0 <= x < |c0| ==> c0[x].Keyed()
      requires forall x {:trigger ds[x]} :: 0 <= x < |c0| ==> ds[x] == IsRepetition(table, Some(c0[x].key))
      requires forall k :: 0 <= k < |sortedNodeList| ==> sortedNodeList[k].stateName == Some(sortedNodeList[k].key)
      requires best == if ks == [] then null else c0[ks[0]]
      modifies this`children, nodes
      ensures forall x :: 0 <= x < |c0| ==> c0[x].value == vs[x]
      ensures children == Nodes(c0, Step(vs, ds, v, rem, ks).0)
      ensures kept == Nodes(c0, Step(vs, ds, v, rem, ks).1)
      ensures forall k :: 0 <= k < |kept| ==> kept[k].stateName == Some(kept[k].key)
      ensures newBest == if Step(vs, ds, v, rem, ks).1 == [] then null else c0[Step(vs, ds, v, rem, ks).1[0]]
    {
      var j := IndexOfValue(v);
      StepAt(vs, ds, v, rem, ks, j);
      kept, newBest := sortedNodeList, best;
      if j < |children| {
        ghost var keep;
        kept, newBest, keep := PlaceFound(j, children[j], table, sortedNodeList, best, c0, ds, rem, ks);
      }
    }

    /** PlaceAt on the `j`th remaining child, with the lists read as indices into `c0`. */
    method PlaceFound(j: int, node: GameTree, table: Table, sortedNodeList: seq<GameTree>, best: GameTree?,
                      ghost c0: seq<GameTree>, ghost ds: seq<bool>, ghost rem: seq<nat>, ghost ks: seq<nat>)
      returns (kept: seq<GameTree>, newBest: GameTree?, ghost keep: bool)
      requires |ds| == |c0| && InRange(rem, |c0|) && InRange(ks, |c0|) && 0 <= j < |rem|
      requires children == Nodes(c0, rem) && sortedNodeList == Nodes(c0, ks) && node == c0[rem[j]]
      requires node.Keyed() && ds[rem[j]] == IsRepetition(table, Some(node.key))
      requires forall k :: 0 <= k < |sortedNodeList| ==> sortedNodeList[k].stateName == Some(sortedNodeList[k].key)
      requires best == if ks == [] then null else c0[ks[0]]
      modifies this`children, node`stateName
      ensures keep == KeepRule(ds[rem[j]], j, |rem|, |ks|)
      ensures InRange(rem[..j] + rem[j + 1..], |c0|) && children == Nodes(c0, rem[..j] + rem[j + 1..])
      ensures InRange(ks + [rem[j]], |c0|) && kept == Nodes(c0, if keep then ks + [rem[j]] else ks)
      ensures forall k :: 0 <= k < |kept| ==> kept[k].stateName == Some(kept[k].key)
      ensures newBest == if kept == [] then null else kept[0]
    {
      kept, newBest, keep := PlaceAt(j, node, table, sortedNodeList, best, ds[rem[j]]);
      NodesAppend(c0, ks, rem[j]);
      NodesRemove(c0, rem, j);
    }

    /**
     * One pass of reorderGameTree's outer loop, once the inner loop has found
     * the child at `j`: the child is kept unless it is a repetition draw
     * (`draw`), or when it is a draw but the last child left and nothing was
     * kept yet; it leaves the children in either case.
     */
    method PlaceAt(j: int, node: GameTree, table: Table, sortedNodeList: seq<GameTree>, best: GameTree?,
                   ghost draw: bool)
      returns (kept: seq<GameTree>, newBest: GameTree?, ghost keep: bool)
      requires 0 <= j < |children| && node == children[j] && node.Keyed()
      requires draw == IsRepetition(table, Some(node.key))
      requires best == if sortedNodeList == [] then null else sortedNodeList[0]
      modifies this`children, node`stateName
      ensures keep == KeepRule(draw, j, |old(children)|, |sortedNodeList|)
      ensures kept == if keep then sortedNodeList + [node] else sortedNodeList
      ensures newBest == if kept == [] then null else kept[0]
      ensures node.stateName == if keep then Some(node.key) else old(node.stateName)
      ensures (forall k :: 0 <= k < |sortedNodeList| ==> old(sortedNodeList[k].stateName) == Some(sortedNodeList[k].key)) ==>
                forall k :: 0 <= k < |kept| ==> kept[k].stateName == Some(kept[k].key)
      ensures children == old(children[..j] + children[j + 1..])
    {
      var isDraw := CheckDrawState(node, table);
      keep := !isDraw || (j == |children| - 1 && |sortedNodeList| == 0);
      kept, newBest := sortedNodeList, best;
      if !isDraw {
        kept := kept + [node];
        if |kept| == 1 {
          newBest := kept[0];
        }
      } else if j == |children| - 1 && |kept| == 0 {
        node.stateName := Some(Fingerprint(node.Position().text));
        kept := kept + [node];
        newBest := kept[0];
      }
      children := children[..j] + children[j + 1..];
    }

    /**
     * PlaceAt as the source has it: a draw kept as the last resort is not
     * named, because the draw check returns before naming it.
     */
    method PlaceAtAsWritten(j: int, node: GameTree, table: Table, sortedNodeList: seq<GameTree>, best: GameTree?,
                            ghost draw: bool)
      returns (kept: seq<GameTree>, newBest: GameTree?, ghost keep: bool)
      requires 0 <= j < |children| && node == children[j] && node.Keyed()
      requires draw == IsRepetition(table, Some(node.key))
      requires best == if sortedNodeList == [] then null else sortedNodeList[0]
      modifies this`children, node`stateName
      ensures keep == KeepRule(draw, j, |old(children)|, |sortedNodeList|)
      ensures kept == if keep then sortedNodeList + [node] else sortedNodeList
      ensures newBest == if kept == [] then null else kept[0]
      ensures node.stateName == NameAsWritten(old(node.stateName), node.key, draw)
      ensures children == old(children[..j] + children[j + 1..])
    {
      var isDraw := CheckDrawState(node, table);
      keep := !isDraw || (j == |children| - 1 && |sortedNodeList| == 0);
      kept, newBest := sortedNodeList, best;
      if !isDraw {
        kept := kept + [node];
        if |kept| == 1 {
          newBest := kept[0];
        }
      } else if j == |children| - 1 && |kept| == 0 {
        kept := kept + [node];
        newBest := kept[0];
      }
      children := children[..j] + children[j + 1..];
    }

    /**
     * putCaptureMoveOntop: the states of the listed nodes, those whose name
     * holds an "x" first, each group in list order.
     */
    method PutCaptureMoveOntop(sortedNodeList: seq<GameTree>) returns (r: seq<nat>)
      requires forall k :: 0 <= k < |sortedNodeList| ==> sortedNodeList[k].stateName.Some?
      ensures r == StatesOf(CaptureFirst(NamedLabels(sortedNodeList)))
    {
      ghost var ls := NamedLabels(sortedNodeList);
      var captureFirstList: seq<nat> := [];
      var nonCaptureMoves: seq<nat> := [];
      var i := 0;
      while i < |sortedNodeList|
        invariant 0 <= i <= |sortedNodeList|
        invariant captureFirstList == StatesOf(Captures(ls[..i]))
        invariant nonCaptureMoves == StatesOf(Quiet(ls[..i]))
      {
        var node := sortedNodeList[i];
        assert ls[..i + 1][..i] == ls[..i];
        if 'x' in node.stateName.value {
          captureFirstList := captureFirstList + [node.state];
        } else {
          nonCaptureMoves := nonCaptureMoves + [node.state];
        }
        i := i + 1;
      }
      assert ls[..i] == ls;
      r := captureFirstList + nonCaptureMoves;
    }
  }
}
