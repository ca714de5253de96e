/**
 * The deepening passes of chooseMove, as a record of what each pass searched
 * and what it kept: the values findMax gave the root's moves, the order and
 * the draw filter of reorderGameTree, the queue each pass leaves for the
 * next, and the node the whole deepening settles on.
 */
module Passes {
  import opened Scores
  import opened Chess
  import opened Search
  import opened Tree

  /** The depth limits of the deepening passes, in order. */
  const DepthLimits: seq<int> := [2, 4, 5]

  /**
   * One deepening pass of chooseMove: its depth limit, the root's pending
   * moves and the descendant count when it began, the value findMax returned,
   * whether the budget stopped it, the values findMax gave the moves it
   * searched, the indices of the moves reorderGameTree kept, in their new
   * order, the best node the reorder returned, and the descendant count and
   * the root's pending moves it ended with.
   */
  datatype Pass = Pass(limit: int, queue: seq<nat>, count: int, value: Score, stopped: bool,
                       values: seq<Score>, kept: seq<nat>, best: GameTree?,
                       endCount: int, leftQueue: seq<nat>)

  /** The moves a pass searched: the first of its queue, one per value. */
  function Searched(p: Pass): (r: seq<nat>)
    requires |p.values| <= |p.queue|
    ensures |r| == |p.values| && forall k :: 0 <= k < |r| ==> r[k] == p.queue[k]
  {
    p.queue[..|p.values|]
  }

  /** Whether the table marks each of the positions `states` as a repetition draw. */
  ghost function Repeats(game: Game, t: Table, states: seq<nat>): (r: seq<bool>)
    requires WellFormed(game) && forall k :: 0 <= k < |states| ==> states[k] < |game|
    ensures |r| == |states| && forall k :: 0 <= k < |states| ==> r[k] == IsDraw(t, game[states[k]])
  {
    seq(|states|, k requires 0 <= k < |states| => IsDraw(t, game[states[k]]))
  }

  /** The positions of `states` at the indices `kept`, labelled with their fingerprints. */
  ghost function KeptLabels(game: Game, states: seq<nat>, kept: seq<nat>): (r: seq<Labelled>)
    requires WellFormed(game) && InRange(kept, |states|) && forall k :: 0 <= k < |states| ==> states[k] < |game|
    ensures |r| == |kept|
    ensures forall k :: 0 <= k < |kept| ==> r[k] == Labelled(Fingerprint(game[states[kept[k]]].text), states[kept[k]])
  {
    seq(|kept|, k requires 0 <= k < |kept| => Labelled(Fingerprint(game[states[kept[k]]].text), states[kept[k]]))
  }

  /** What the root search of pass `p` computes, from the root `s` of a move. */
  ghost function PassOutcome(game: Game, s: nat, t: Table, p: Pass): Outcome
    requires WellFormed(game) && s < |game| && 0 <= p.limit
    requires InGame(Ctx(game, game[s].player, p.limit, t), p.queue)
  {
    MaxNode(Ctx(game, game[s].player, p.limit, t), s, p.queue, NegInf, PosInf, 0, SearchState(false, p.count))
  }

  /**
   * What the search and the reorder of pass `p` need to be defined: a depth
   * limit, queued positions of the game, no more values than queued moves and
   * kept indices among the searched ones.
   */
  ghost predicate Shaped(game: Game, s: nat, t: Table, p: Pass)
    requires s < |game|
  {
    && 0 <= p.limit
    && InGame(Ctx(game, game[s].player, p.limit, t), p.queue)
    && |p.values| <= |p.queue|
    && InRange(p.kept, |p.values|)
  }

  /**
   * Pass `p` reports the value and the stop flag of its root search and the
   * values it gave the moves it searched; it keeps those moves as
   * reorderGameTree orders and filters them (highest value first, ties in
   * search order, draws only in first place), and its best node is the first
   * kept move, keyed by its position's fingerprint. It ends with the count
   * its search reached and leaves the queue NextQueue says.
   */
  ghost predicate PassSearched(game: Game, s: nat, t: Table, p: Pass)
    requires WellFormed(game) && s < |game|
  {
    && Shaped(game, s, t, p)
    && p.value == PassOutcome(game, s, t, p).value
    && p.stopped == PassOutcome(game, s, t, p).st.stop
    && p.values == MaxNodeValues(Ctx(game, game[s].player, p.limit, t), s, p.queue, NegInf, PosInf, 0, SearchState(false, p.count))
    && SortedStable(p.values, p.kept)
    && DrawPolicy(p.values, Repeats(game, t, Searched(p)), p.kept)
    && (p.best == null <==> p.kept == [])
    && (p.best != null ==> p.best.state == Searched(p)[p.kept[0]] && p.best.key == Fingerprint(game[p.best.state].text))
    && p.endCount == PassOutcome(game, s, t, p).st.count
    && p.leftQueue == NextQueue(game, s, t, p)
  }

  /** The queue a pass leaves for the next one: its kept moves, captures first. */
  ghost function NextQueue(game: Game, s: nat, t: Table, p: Pass): seq<nat>
    requires WellFormed(game) && s < |game| && Shaped(game, s, t, p)
  {
    StatesOf(CaptureFirst(KeptLabels(game, Searched(p), p.kept)))
  }

  /**
   * The best node of a pass leads the moves it searched: no move that is not a
   * repetition draw has a higher value, one with the same value was searched
   * no earlier, and when no searched move is a draw its value is the value of
   * the root.
   */
  lemma PassBest(game: Game, s: nat, t: Table, p: Pass)
    requires WellFormed(game) && s < |game| && PassSearched(game, s, t, p) && 0 < p.limit && p.best != null
    ensures var vs, ds := p.values, Repeats(game, t, Searched(p));
            forall x :: 0 <= x < |vs| && !ds[x] ==> Le(vs[x], vs[p.kept[0]]) && (vs[x] == vs[p.kept[0]] ==> p.kept[0] <= x)
    ensures (forall x :: 0 <= x < |p.values| ==> !Repeats(game, t, Searched(p))[x]) ==> p.value == p.values[p.kept[0]]
  {
    var c := Ctx(game, game[s].player, p.limit, t);
    var ds := Repeats(game, t, Searched(p));
    KeptFirstLeads(p.values, ds, p.kept);
    RootValueIsHighest(c, s, p.queue, SearchState(false, p.count));
    var h := Highest(NegInf, p.values);
    if forall x :: 0 <= x < |p.values| ==> !ds[x] {
      if h != NegInf {
        var k :| 0 <= k < |p.values| && h == p.values[k];
        assert Le(p.values[k], p.values[p.kept[0]]);
      }
    }
  }

  /**
   * The best node of a pass is a repetition draw only when it is the last
   * move searched, and either every move searched is a draw, or the move
   * mates and every other move searched that is worth +infinity is a draw too.
   */
  lemma PassDrawBest(game: Game, s: nat, t: Table, p: Pass)
    requires WellFormed(game) && s < |game| && PassSearched(game, s, t, p) && 0 < p.limit && p.best != null
    requires Repeats(game, t, Searched(p))[p.kept[0]]
    ensures p.kept[0] == |p.values| - 1
    ensures || (forall x :: 0 <= x < |p.values| ==> Repeats(game, t, Searched(p))[x])
            || (&& p.values[p.kept[0]] == PosInf && game[p.best.state].over && game[p.best.state].check
                && forall x :: 0 <= x < |p.values| && p.values[x] == PosInf ==> Repeats(game, t, Searched(p))[x])
  {
    var c := Ctx(game, game[s].player, p.limit, t);
    var ds := Repeats(game, t, Searched(p));
    var n := |p.values|;
    KeptDrawLeads(p.values, ds, p.kept, 0);
    RootSearchDraws(c, s, p.queue, SearchState(false, p.count));
    assert DrawScored(c, p.queue[n - 1], p.values[n - 1]);
  }

  /**
   * Pass `p` follows pass `prev` of the same move: the budget did not stop
   * `prev`, and `p` continues its descendant count and searches the queue it
   * left, the moves reorderGameTree kept, captures first.
   */
  ghost predicate Follows(game: Game, s: nat, prev: Pass, p: Pass)
    requires s < |game|
  {
    && !prev.stopped
    && p.count == prev.endCount
    && p.queue != [] && (forall x :: x in p.queue ==> x in game[s].successors)
    && p.queue == prev.leftQueue
  }

  /**
   * Pass `i` of the passes of chooseMove: it searched to DepthLimits[i]; the
   * first pass saw every legal move with a fresh descendant count, and a later
   * pass follows the one before it.
   */
  ghost predicate PassAt(game: Game, s: nat, t: Table, passes: seq<Pass>, i: nat)
    requires WellFormed(game) && s < |game| && i < |passes| <= |DepthLimits|
  {
    && passes[i].limit == DepthLimits[i] && PassSearched(game, s, t, passes[i])
    && (i == 0 ==> passes[i].queue == game[s].successors && passes[i].count == 0)
    && (i > 0 ==> Follows(game, s, passes[i - 1], passes[i]))
  }

  /** The passes of chooseMove so far, at most one per depth limit, each as PassAt says. */
  ghost predicate Chained(game: Game, s: nat, t: Table, passes: seq<Pass>)
    requires WellFormed(game) && s < |game|
  {
    && |passes| <= |DepthLimits|
    && forall i: nat :: i < |passes| ==> PassAt(game, s, t, passes, i)
  }

  /** The whole deepening of a move: at least one pass, ending with a stopped pass or the last depth limit. */
  ghost predicate Deepened(game: Game, s: nat, t: Table, passes: seq<Pass>)
    requires WellFormed(game) && s < |game|
  {
    && 1 <= |passes|
    && Chained(game, s, t, passes)
    && (passes[|passes| - 1].stopped || |passes| == |DepthLimits|)
  }

  /** Whether pass `i` is in place depends only on that pass and the one before it. */
  lemma PassAtCarries(game: Game, s: nat, t: Table, a: seq<Pass>, b: seq<Pass>, i: nat)
    requires WellFormed(game) && s < |game| && i < |a| <= |DepthLimits| && i < |b| <= |DepthLimits|
    requires a[i] == b[i] && (i > 0 ==> a[i - 1] == b[i - 1])
    requires PassAt(game, s, t, a, i)
    ensures PassAt(game, s, t, b, i)
  {
  }

  /** A pass searched to the next depth limit, starting where the last pass left off, is in place after it. */
  lemma PassAtLast(game: Game, s: nat, t: Table, passes: seq<Pass>, p: Pass)
    requires WellFormed(game) && s < |game| && |passes| < |DepthLimits|
    requires p.limit == DepthLimits[|passes|] && PassSearched(game, s, t, p)
    requires passes == [] ==> p.queue == game[s].successors && p.count == 0
    requires passes != [] ==> Follows(game, s, passes[|passes| - 1], p)
    ensures PassAt(game, s, t, passes + [p], |passes|)
  {
    var ps := passes + [p];
    assert ps[|passes|] == p;
    if passes != [] {
      assert ps[|passes| - 1] == passes[|passes| - 1];
    }
  }

  /** A pass that starts where the last one left off extends the chain. */
  lemma ChainedGrows(game: Game, s: nat, t: Table, passes: seq<Pass>, p: Pass)
    requires WellFormed(game) && s < |game| && Chained(game, s, t, passes) && |passes| < |DepthLimits|
    requires p.limit == DepthLimits[|passes|] && PassSearched(game, s, t, p)
    requires passes == [] ==> p.queue == game[s].successors && p.count == 0
    requires passes != [] ==> Follows(game, s, passes[|passes| - 1], p)
    ensures Chained(game, s, t, passes + [p])
  {
    var ps := passes + [p];
    forall i: nat | i < |ps|
      ensures PassAt(game, s, t, ps, i)
    {
      if i < |passes| {
        PassAtCarries(game, s, t, passes, ps, i);
      } else {
        PassAtLast(game, s, t, passes, p);
      }
    }
  }

  /** The node chooseMove settles on: the best node of the last pass the budget did not stop. */
  function Settled(passes: seq<Pass>): GameTree?
    requires |passes| >= 1
  {
    if passes[|passes| - 1].stopped then
      (if |passes| >= 2 then passes[|passes| - 2].best else null)
    else passes[|passes| - 1].best
  }

  /** The node chooseMove settles on is one of the root's moves, keyed by its position's fingerprint. */
  lemma SettledIsMove(game: Game, s: nat, t: Table, passes: seq<Pass>)
    requires WellFormed(game) && s < |game| && Chained(game, s, t, passes) && |passes| >= 1
    requires Settled(passes) != null
    ensures Settled(passes).state in game[s].successors
    ensures Settled(passes).key == Fingerprint(game[Settled(passes).state].text)
  {
    var i := if passes[|passes| - 1].stopped then |passes| - 2 else |passes| - 1;
    assert PassAt(game, s, t, passes, i);
    var p := passes[i];
    assert p.queue[p.kept[0]] in p.queue;
  }

}
