/**
 * The alpha-beta search of findMax and findMin as functions.  The bot's flag
 * `stopSearching` and the descendant count that the budget check reads are
 * threaded through the calls as a `SearchState`; a call returns its value, the
 * search state after it, and how many entries of the node's queue of pending
 * successor states it consumed.  Leaf scores come from `Scoring.Evaluation`.
 * The methods `Bot.MyBot.FindMax` and `Bot.MyBot.FindMin` are proved to compute
 * `MaxNode` and `MinNode`.
 */
module Search {
  import opened Wrappers
  import opened Scores
  import opened Chess
  import opened Scoring

  /** The descendant count above which a search is cancelled. */
  const Budget := 499000

  /** What a search pass reads but never changes. */
  datatype Ctx = Ctx(game: Game, side: Side, limit: int, table: Table)

  /** The cancellation flag and the number of nodes expanded so far. */
  datatype SearchState = SearchState(stop: bool, count: int)

  datatype Outcome = Outcome(value: Score, st: SearchState, consumed: nat)

  ghost predicate ValidCtx(c: Ctx) {
    WellFormed(c.game)
  }

  ghost predicate InGame(c: Ctx, queue: seq<nat>) {
    forall i :: 0 <= i < |queue| ==> queue[i] < |c.game|
  }

  /** The outcome of a loop that ran one more step before the rest. */
  function Shift(o: Outcome, n: nat): Outcome {
    o.(consumed := o.consumed + n)
  }

  /** The static evaluation the search uses at the depth limit. */
  function Leaf(c: Ctx, s: nat): Score
    requires s < |c.game|
  {
    Fin(Evaluation(c.game[s], c.side, true))
  }

  /** findMax on the position `s` whose pending successors are `queue`. */
  function MaxNode(c: Ctx, s: nat, queue: seq<nat>, alpha: Score, beta: Score, depth: int,
                   st: SearchState): (r: Outcome)
    requires ValidCtx(c) && s < |c.game| && InGame(c, queue) && 0 <= depth <= c.limit
    ensures r.consumed <= |queue|
    decreases c.limit - depth, 1, 0
  {
    if st.stop then Outcome(NegInf, st, 0)
    else if st.count > Budget then Outcome(NegInf, st.(stop := true), 0)
    else if depth == c.limit then Outcome(Leaf(c, s), st, 0)
    else MaxLoop(c, queue, alpha, beta, depth, NegInf, st)
  }

  /** The child loop of findMax, with `max` the running maximum. */
  function MaxLoop(c: Ctx, queue: seq<nat>, alpha: Score, beta: Score, depth: int, max: Score,
                   st: SearchState): (r: Outcome)
    requires ValidCtx(c) && InGame(c, queue) && 0 <= depth < c.limit
    ensures r.consumed <= |queue|
    decreases c.limit - depth, 0, |queue|
  {
    if queue == [] then Outcome(max, st, 0)
    else
      var child := queue[0];
      var o := MinNode(c, child, c.game[child].successors, alpha, beta, depth + 1,
                       st.(count := st.count + 1));
      var m := Max(max, o.value);
      if Le(beta, m) then Outcome(Inc(m), o.st, 1)
      else Shift(MaxLoop(c, queue[1..], Max(alpha, m), beta, depth, m, o.st), 1)
  }

  /** findMin on the position `s` whose pending successors are `queue`. */
  function MinNode(c: Ctx, s: nat, queue: seq<nat>, alpha: Score, beta: Score, depth: int,
                   st: SearchState): (r: Outcome)
    requires ValidCtx(c) && s < |c.game| && InGame(c, queue) && 0 <= depth <= c.limit
    ensures r.consumed <= |queue|
    decreases c.limit - depth, 1, 0
  {
    if st.stop then Outcome(NegInf, st, 0)
    else if st.count > Budget then Outcome(NegInf, st.(stop := true), 0)
    else if depth == 1 && c.game[s].over then
      Outcome(if c.game[s].check then PosInf else NegInf, st, 0)
    else if depth == 1 && IsDraw(c.table, c.game[s]) then Outcome(NegInf, st, 0)
    else if depth == c.limit then Outcome(Leaf(c, s), st, 0)
    else MinLoop(c, queue, alpha, beta, depth, PosInf, st)
  }

  /** The child loop of findMin, with `min` the running minimum. */
  function MinLoop(c: Ctx, queue: seq<nat>, alpha: Score, beta: Score, depth: int, min: Score,
                   st: SearchState): (r: Outcome)
    requires ValidCtx(c) && InGame(c, queue) && 0 <= depth < c.limit
    ensures r.consumed <= |queue|
    decreases c.limit - depth, 0, |queue|
  {
    if queue == [] then Outcome(min, st, 0)
    else
      var child := queue[0];
      var o := MaxNode(c, child, c.game[child].successors, alpha, beta, depth + 1,
                       st.(count := st.count + 1));
      var m := Min(min, o.value);
      if Le(m, alpha) then Outcome(Dec(m), o.st, 1)
      else Shift(MinLoop(c, queue[1..], alpha, Min(beta, m), depth, m, o.st), 1)
  }

  // ----- The values the expanded children get -----

  /**
   * The values findMax's child loop stores in the children it expands: what
   * findMin returned for each, one per consumed move, in the queue's order.
   */
  function MaxLoopValues(c: Ctx, queue: seq<nat>, alpha: Score, beta: Score, depth: int, max: Score,
                         st: SearchState): (r: seq<Score>)
    requires ValidCtx(c) && InGame(c, queue) && 0 <= depth < c.limit
    ensures |r| == MaxLoop(c, queue, alpha, beta, depth, max, st).consumed
    decreases |queue|
  {
    if queue == [] then []
    else
      var child := queue[0];
      var o := MinNode(c, child, c.game[child].successors, alpha, beta, depth + 1,
                       st.(count := st.count + 1));
      var m := Max(max, o.value);
      if Le(beta, m) then [o.value]
      else [o.value] + MaxLoopValues(c, queue[1..], Max(alpha, m), beta, depth, m, o.st)
  }

  /** The values findMax on `s` stores in the children it expands. */
  function MaxNodeValues(c: Ctx, s: nat, queue: seq<nat>, alpha: Score, beta: Score, depth: int,
                         st: SearchState): (r: seq<Score>)
    requires ValidCtx(c) && s < |c.game| && InGame(c, queue) && 0 <= depth <= c.limit
    ensures |r| == MaxNode(c, s, queue, alpha, beta, depth, st).consumed
  {
    if st.stop || st.count > Budget || depth == c.limit then []
    else MaxLoopValues(c, queue, alpha, beta, depth, NegInf, st)
  }

  /** The largest of `max` and the scores of `vs`. */
  function Highest(max: Score, vs: seq<Score>): (r: Score)
    ensures Le(max, r) && forall k :: 0 <= k < |vs| ==> Le(vs[k], r)
    ensures r == max || exists k :: 0 <= k < |vs| && r == vs[k]
    decreases |vs|
  {
    if vs == [] then max else Highest(Max(max, vs[0]), vs[1..])
  }

  /**
   * With beta at +infinity, findMax's loop returns the largest of the running
   * maximum and the values it stores in the children it expands: a cut-off
   * there only happens at +infinity, where adding one changes nothing.
   */
  lemma {:induction false} OpenLoopValue(c: Ctx, queue: seq<nat>, alpha: Score, depth: int, max: Score,
                                         st: SearchState)
    requires ValidCtx(c) && InGame(c, queue) && 0 <= depth < c.limit
    ensures MaxLoop(c, queue, alpha, PosInf, depth, max, st).value
            == Highest(max, MaxLoopValues(c, queue, alpha, PosInf, depth, max, st))
    decreases |queue|
  {
    if queue != [] {
      var child := queue[0];
      var o := MinNode(c, child, c.game[child].successors, alpha, PosInf, depth + 1,
                       st.(count := st.count + 1));
      var m := Max(max, o.value);
      if !Le(PosInf, m) {
        OpenLoopValue(c, queue[1..], Max(alpha, m), depth, m, o.st);
        var rest := MaxLoopValues(c, queue[1..], Max(alpha, m), PosInf, depth, m, o.st);
        assert ([o.value] + rest)[1..] == rest;
      }
    }
  }

  /**
   * The root search's value is the largest value it stores in the root's
   * children, or -infinity when it expands none.
   */
  lemma RootValueIsHighest(c: Ctx, s: nat, queue: seq<nat>, st: SearchState)
    requires ValidCtx(c) && s < |c.game| && InGame(c, queue) && 0 < c.limit
    ensures MaxNode(c, s, queue, NegInf, PosInf, 0, st).value
            == Highest(NegInf, MaxNodeValues(c, s, queue, NegInf, PosInf, 0, st))
  {
    if !st.stop && st.count <= Budget {
      OpenLoopValue(c, queue, NegInf, 0, NegInf, st);
    }
  }

  /**
   * The score findMin gives a move from the root to a repetition draw:
   * -infinity, or +infinity when the move mates.
   */
  ghost predicate DrawScored(c: Ctx, s: nat, v: Score)
    requires s < |c.game|
  {
    v == NegInf || (v == PosInf && c.game[s].over && c.game[s].check)
  }

  /** At depth 1, findMin scores a repetition draw before it searches it. */
  lemma DrawChildScore(c: Ctx, s: nat, queue: seq<nat>, alpha: Score, beta: Score, st: SearchState)
    requires ValidCtx(c) && s < |c.game| && InGame(c, queue) && 1 <= c.limit
    requires IsDraw(c.table, c.game[s])
    ensures DrawScored(c, s, MinNode(c, s, queue, alpha, beta, 1, st).value)
  {
  }

  /** findMax's loop at the root stores a DrawScored value for every repetition draw. */
  lemma {:induction false} RootLoopDraws(c: Ctx, queue: seq<nat>, alpha: Score, beta: Score, max: Score,
                                         st: SearchState)
    requires ValidCtx(c) && InGame(c, queue) && 0 < c.limit
    ensures var vs := MaxLoopValues(c, queue, alpha, beta, 0, max, st);
            |vs| <= |queue| && forall k :: 0 <= k < |vs| && IsDraw(c.table, c.game[queue[k]]) ==> DrawScored(c, queue[k], vs[k])
    decreases |queue|
  {
    if queue != [] {
      var child := queue[0];
      var st' := st.(count := st.count + 1);
      var o := MinNode(c, child, c.game[child].successors, alpha, beta, 1, st');
      var m := Max(max, o.value);
      if IsDraw(c.table, c.game[child]) {
        DrawChildScore(c, child, c.game[child].successors, alpha, beta, st');
      }
      if !Le(beta, m) {
        var rest := MaxLoopValues(c, queue[1..], Max(alpha, m), beta, 0, m, o.st);
        RootLoopDraws(c, queue[1..], Max(alpha, m), beta, m, o.st);
        assert MaxLoopValues(c, queue, alpha, beta, 0, max, st) == [o.value] + rest;
      }
    }
  }

  /** The root search stores a DrawScored value for every repetition draw it expands. */
  lemma RootSearchDraws(c: Ctx, s: nat, queue: seq<nat>, st: SearchState)
    requires ValidCtx(c) && s < |c.game| && InGame(c, queue) && 0 < c.limit
    ensures var vs := MaxNodeValues(c, s, queue, NegInf, PosInf, 0, st);
            |vs| <= |queue| && forall k :: 0 <= k < |vs| && IsDraw(c.table, c.game[queue[k]]) ==> DrawScored(c, queue[k], vs[k])
  {
    if !st.stop && st.count <= Budget {
      RootLoopDraws(c, queue, NegInf, PosInf, NegInf, st);
    }
  }

  // ----- The stop flag and the budget -----

  /**
   * Once set, the stop flag stays set; the count never goes down; and a search
   * that ends without the flag never saw more than `Budget` descendants.
   */
  ghost predicate StateAfter(st: SearchState, r: SearchState) {
    r.count >= st.count && (st.stop ==> r.stop) && (!r.stop ==> r.count <= Budget)
  }

  lemma {:induction false} MaxNodeState(c: Ctx, s: nat, queue: seq<nat>, alpha: Score, beta: Score,
                                        depth: int, st: SearchState)
    requires ValidCtx(c) && s < |c.game| && InGame(c, queue) && 0 <= depth <= c.limit
    ensures StateAfter(st, MaxNode(c, s, queue, alpha, beta, depth, st).st)
    decreases c.limit - depth, 1, 0
  {
    if !st.stop && st.count <= Budget && depth != c.limit {
      MaxLoopState(c, queue, alpha, beta, depth, NegInf, st);
    }
  }

  lemma {:induction false} MaxLoopState(c: Ctx, queue: seq<nat>, alpha: Score, beta: Score, depth: int,
                                        max: Score, st: SearchState)
    requires ValidCtx(c) && InGame(c, queue) && 0 <= depth < c.limit
    requires st.stop || st.count <= Budget
    ensures StateAfter(st, MaxLoop(c, queue, alpha, beta, depth, max, st).st)
    decreases c.limit - depth, 0, |queue|
  {
    if queue != [] {
      var child := queue[0];
      var st1 := st.(count := st.count + 1);
      var o := MinNode(c, child, c.game[child].successors, alpha, beta, depth + 1, st1);
      MinNodeState(c, child, c.game[child].successors, alpha, beta, depth + 1, st1);
      var m := Max(max, o.value);
      if !Le(beta, m) {
        MaxLoopState(c, queue[1..], Max(alpha, m), beta, depth, m, o.st);
      }
    }
  }

  lemma {:induction false} MinNodeState(c: Ctx, s: nat, queue: seq<nat>, alpha: Score, beta: Score,
                                        depth: int, st: SearchState)
    requires ValidCtx(c) && s < |c.game| && InGame(c, queue) && 0 <= depth <= c.limit
    ensures StateAfter(st, MinNode(c, s, queue, alpha, beta, depth, st).st)
    decreases c.limit - depth, 1, 0
  {
    if !st.stop && st.count <= Budget && !(depth == 1 && c.game[s].over)
       && !(depth == 1 && IsDraw(c.table, c.game[s])) && depth != c.limit {
      MinLoopState(c, queue, alpha, beta, depth, PosInf, st);
    }
  }

  lemma {:induction false} MinLoopState(c: Ctx, queue: seq<nat>, alpha: Score, beta: Score, depth: int,
                                        min: Score, st: SearchState)
    requires ValidCtx(c) && InGame(c, queue) && 0 <= depth < c.limit
    requires st.stop || st.count <= Budget
    ensures StateAfter(st, MinLoop(c, queue, alpha, beta, depth, min, st).st)
    decreases c.limit - depth, 0, |queue|
  {
    if queue != [] {
      var child := queue[0];
      var st1 := st.(count := st.count + 1);
      var o := MaxNode(c, child, c.game[child].successors, alpha, beta, depth + 1, st1);
      MaxNodeState(c, child, c.game[child].successors, alpha, beta, depth + 1, st1);
      var m := Min(min, o.value);
      if !Le(m, alpha) {
        MinLoopState(c, queue[1..], alpha, Min(beta, m), depth, m, o.st);
      }
    }
  }

  // ----- The pruning sentinels -----

  /**
   * findMax's child loop: the result is at least the running maximum; a result
   * below beta means no pending child was skipped; a finite result at or above
   * beta lies strictly above it (the `max + 1.0` sentinel).
   */
  lemma {:induction false} MaxLoopPrune(c: Ctx, queue: seq<nat>, alpha: Score, beta: Score, depth: int,
                                        max: Score, st: SearchState)
    requires ValidCtx(c) && InGame(c, queue) && 0 <= depth < c.limit
    requires Lt(max, beta)
    ensures var r := MaxLoop(c, queue, alpha, beta, depth, max, st);
            Le(max, r.value)
            && (Lt(r.value, beta) ==> r.consumed == |queue|)
            && (Le(beta, r.value) && r.value.Fin? ==> Lt(beta, r.value))
    decreases |queue|
  {
    if queue != [] {
      var child := queue[0];
      var o := MinNode(c, child, c.game[child].successors, alpha, beta, depth + 1,
                       st.(count := st.count + 1));
      var m := Max(max, o.value);
      if !Le(beta, m) {
        MaxLoopPrune(c, queue[1..], Max(alpha, m), beta, depth, m, o.st);
      }
    }
  }

  /**
   * findMin's child loop: the result is at most the running minimum; a result
   * above alpha means no pending child was skipped; a finite result at or below
   * alpha lies strictly below it (the `min - 1.0` sentinel).
   */
  lemma {:induction false} MinLoopPrune(c: Ctx, queue: seq<nat>, alpha: Score, beta: Score, depth: int,
                                        min: Score, st: SearchState)
    requires ValidCtx(c) && InGame(c, queue) && 0 <= depth < c.limit
    requires Lt(alpha, min)
    ensures var r := MinLoop(c, queue, alpha, beta, depth, min, st);
            Le(r.value, min)
            && (Lt(alpha, r.value) ==> r.consumed == |queue|)
            && (Le(r.value, alpha) && r.value.Fin? ==> Lt(r.value, alpha))
    decreases |queue|
  {
    if queue != [] {
      var child := queue[0];
      var o := MaxNode(c, child, c.game[child].successors, alpha, beta, depth + 1,
                       st.(count := st.count + 1));
      var m := Min(min, o.value);
      if !Le(m, alpha) {
        MinLoopPrune(c, queue[1..], alpha, Min(beta, m), depth, m, o.st);
      }
    }
  }

  // ----- Soundness against plain minimax -----

  /**
   * Minimax without pruning, budget or stop flag, with the same leaf scores and
   * the same game-over and repetition rules for the children of the root.
   */
  function MaxValue(c: Ctx, s: nat, queue: seq<nat>, depth: int): Score
    requires ValidCtx(c) && s < |c.game| && InGame(c, queue) && 0 <= depth <= c.limit
    decreases c.limit - depth, 1, 0
  {
    if depth == c.limit then Leaf(c, s) else MaxAll(c, queue, depth)
  }

  function MaxAll(c: Ctx, queue: seq<nat>, depth: int): Score
    requires ValidCtx(c) && InGame(c, queue) && 0 <= depth < c.limit
    decreases c.limit - depth, 0, |queue|
  {
    if queue == [] then NegInf
    else Max(MinValue(c, queue[0], c.game[queue[0]].successors, depth + 1), MaxAll(c, queue[1..], depth))
  }

  function MinValue(c: Ctx, s: nat, queue: seq<nat>, depth: int): Score
    requires ValidCtx(c) && s < |c.game| && InGame(c, queue) && 0 <= depth <= c.limit
    decreases c.limit - depth, 1, 0
  {
    if depth == 1 && c.game[s].over then (if c.game[s].check then PosInf else NegInf)
    else if depth == 1 && IsDraw(c.table, c.game[s]) then NegInf
    else if depth == c.limit then Leaf(c, s)
    else MinAll(c, queue, depth)
  }

  function MinAll(c: Ctx, queue: seq<nat>, depth: int): Score
    requires ValidCtx(c) && InGame(c, queue) && 0 <= depth < c.limit
    decreases c.limit - depth, 0, |queue|
  {
    if queue == [] then PosInf
    else Min(MaxValue(c, queue[0], c.game[queue[0]].successors, depth + 1), MinAll(c, queue[1..], depth))
  }

  /**
   * What a search with window (alpha, beta) promises about the true value `t`
   * when it returns `r`: inside the window r is exact; at or below alpha the true
   * value is too; at or above beta the true value is too.
   */
  ghost predicate Window(alpha: Score, beta: Score, r: Score, t: Score) {
    && (Lt(alpha, r) && Lt(r, beta) ==> r == t)
    && (Le(r, alpha) ==> Le(t, alpha))
    && (Le(beta, r) ==> Le(beta, t))
  }

  /** findMax's loop cuts off: the true value is at least beta as well. */
  lemma MaxPruneStep(alpha: Score, beta: Score, max: Score, w: Score, v: Score, rest: Score)
    requires Le(max, alpha) && Lt(alpha, beta) && Window(alpha, beta, w, v)
    requires Le(beta, Max(max, w))
    ensures Le(max, Inc(Max(max, w)))
    ensures Window(alpha, beta, Inc(Max(max, w)), Max(max, Max(v, rest)))
  {
  }

  /** findMax's loop goes on with alpha raised to the running maximum. */
  lemma MaxContinueStep(alpha: Score, beta: Score, max: Score, w: Score, v: Score, r: Score, rest: Score)
    requires Le(max, alpha) && Lt(alpha, beta) && Window(alpha, beta, w, v)
    requires !Le(beta, Max(max, w))
    requires Le(Max(max, w), r) && Window(Max(alpha, Max(max, w)), beta, r, Max(Max(max, w), rest))
    ensures Le(max, r) && Window(alpha, beta, r, Max(max, Max(v, rest)))
  {
  }

  /** findMin's loop cuts off: the true value is at most alpha as well. */
  lemma MinPruneStep(alpha: Score, beta: Score, min: Score, w: Score, v: Score, rest: Score)
    requires Le(beta, min) && Lt(alpha, beta) && Window(alpha, beta, w, v)
    requires Le(Min(min, w), alpha)
    ensures Le(Dec(Min(min, w)), min)
    ensures Window(alpha, beta, Dec(Min(min, w)), Min(min, Min(v, rest)))
  {
  }

  /** findMin's loop goes on with beta lowered to the running minimum. */
  lemma MinContinueStep(alpha: Score, beta: Score, min: Score, w: Score, v: Score, r: Score, rest: Score)
    requires Le(beta, min) && Lt(alpha, beta) && Window(alpha, beta, w, v)
    requires !Le(Min(min, w), alpha)
    requires Le(r, Min(min, w)) && Window(alpha, Min(beta, Min(min, w)), r, Min(Min(min, w), rest))
    ensures Le(r, min) && Window(alpha, beta, r, Min(min, Min(v, rest)))
  {
  }

  lemma {:induction false} MaxNodeSound(c: Ctx, s: nat, queue: seq<nat>, alpha: Score, beta: Score,
                                        depth: int, st: SearchState)
    requires ValidCtx(c) && s < |c.game| && InGame(c, queue) && 0 <= depth <= c.limit
    requires Lt(alpha, beta)
    ensures var r := MaxNode(c, s, queue, alpha, beta, depth, st);
            !r.st.stop ==> Window(alpha, beta, r.value, MaxValue(c, s, queue, depth))
    decreases c.limit - depth, 1, 0
  {
    if !st.stop && st.count <= Budget && depth != c.limit {
      MaxLoopSound(c, queue, alpha, beta, depth, NegInf, st);
    }
  }

  lemma {:induction false} MaxLoopSound(c: Ctx, queue: seq<nat>, alpha: Score, beta: Score, depth: int,
                                        max: Score, st: SearchState)
    requires ValidCtx(c) && InGame(c, queue) && 0 <= depth < c.limit
    requires Le(max, alpha) && Lt(alpha, beta)
    ensures var r := MaxLoop(c, queue, alpha, beta, depth, max, st);
            !r.st.stop ==> Le(max, r.value) && Window(alpha, beta, r.value, Max(max, MaxAll(c, queue, depth)))
    decreases c.limit - depth, 0, |queue|
  {
    if queue != [] {
      var child := queue[0];
      var st1 := st.(count := st.count + 1);
      var o := MinNode(c, child, c.game[child].successors, alpha, beta, depth + 1, st1);
      MinNodeSound(c, child, c.game[child].successors, alpha, beta, depth + 1, st1);
      var v := MinValue(c, child, c.game[child].successors, depth + 1);
      var m := Max(max, o.value);
      if !Le(beta, m) {
        MinNodeState(c, child, c.game[child].successors, alpha, beta, depth + 1, st1);
        MaxLoopState(c, queue[1..], Max(alpha, m), beta, depth, m, o.st);
        MaxLoopSound(c, queue[1..], Max(alpha, m), beta, depth, m, o.st);
        var r := MaxLoop(c, queue[1..], Max(alpha, m), beta, depth, m, o.st);
        if !r.st.stop {
          MaxContinueStep(alpha, beta, max, o.value, v, r.value, MaxAll(c, queue[1..], depth));
        }
      } else {
        if !o.st.stop {
          MaxPruneStep(alpha, beta, max, o.value, v, MaxAll(c, queue[1..], depth));
        }
      }
    }
  }

  lemma {:induction false} MinNodeSound(c: Ctx, s: nat, queue: seq<nat>, alpha: Score, beta: Score,
                                        depth: int, st: SearchState)
    requires ValidCtx(c) && s < |c.game| && InGame(c, queue) && 0 <= depth <= c.limit
    requires Lt(alpha, beta)
    ensures var r := MinNode(c, s, queue, alpha, beta, depth, st);
            !r.st.stop ==> Window(alpha, beta, r.value, MinValue(c, s, queue, depth))
    decreases c.limit - depth, 1, 0
  {
    if st.stop || st.count > Budget {
    } else if depth == 1 && c.game[s].over {
      WindowExact(alpha, beta, if c.game[s].check then PosInf else NegInf);
    } else if depth == 1 && IsDraw(c.table, c.game[s]) {
      WindowExact(alpha, beta, NegInf);
    } else if depth == c.limit {
      WindowExact(alpha, beta, Leaf(c, s));
    } else {
      MinLoopSound(c, queue, alpha, beta, depth, PosInf, st);
    }
  }

  lemma WindowExact(alpha: Score, beta: Score, r: Score)
    ensures Window(alpha, beta, r, r)
  {
  }

  lemma {:induction false} MinLoopSound(c: Ctx, queue: seq<nat>, alpha: Score, beta: Score, depth: int,
                                        min: Score, st: SearchState)
    requires ValidCtx(c) && InGame(c, queue) && 0 <= depth < c.limit
    requires Le(beta, min) && Lt(alpha, beta)
    ensures var r := MinLoop(c, queue, alpha, beta, depth, min, st);
            !r.st.stop ==> Le(r.value, min) && Window(alpha, beta, r.value, Min(min, MinAll(c, queue, depth)))
    decreases c.limit - depth, 0, |queue|
  {
    if queue != [] {
      var child := queue[0];
      var st1 := st.(count := st.count + 1);
      var o := MaxNode(c, child, c.game[child].successors, alpha, beta, depth + 1, st1);
      MaxNodeSound(c, child, c.game[child].successors, alpha, beta, depth + 1, st1);
      var v := MaxValue(c, child, c.game[child].successors, depth + 1);
      var m := Min(min, o.value);
      if !Le(m, alpha) {
        MaxNodeState(c, child, c.game[child].successors, alpha, beta, depth + 1, st1);
        MinLoopState(c, queue[1..], alpha, Min(beta, m), depth, m, o.st);
        MinLoopSound(c, queue[1..], alpha, Min(beta, m), depth, m, o.st);
        var r := MinLoop(c, queue[1..], alpha, Min(beta, m), depth, m, o.st);
        if !r.st.stop {
          MinContinueStep(alpha, beta, min, o.value, v, r.value, MinAll(c, queue[1..], depth));
        }
      } else {
        if !o.st.stop {
          MinPruneStep(alpha, beta, min, o.value, v, MinAll(c, queue[1..], depth));
        }
      }
    }
  }

  /**
   * At the root, searched with the full window, a pass that was not cancelled
   * returns exactly the minimax value of the root's pending moves.
   */
  lemma RootSearchIsMinimax(c: Ctx, s: nat, queue: seq<nat>, st: SearchState)
    requires ValidCtx(c) && s < |c.game| && InGame(c, queue) && 0 <= c.limit
    ensures var r := MaxNode(c, s, queue, NegInf, PosInf, 0, st);
            !r.st.stop ==> r.value == MaxValue(c, s, queue, 0)
  {
    MaxNodeSound(c, s, queue, NegInf, PosInf, 0, st);
  }

  /**
   * A root search that ends without the stop flag consumed at least one of the
   * root's pending moves, when there was one and the depth limit is positive.
   */
  lemma MaxNodeExpands(c: Ctx, s: nat, queue: seq<nat>, st: SearchState)
    requires ValidCtx(c) && s < |c.game| && InGame(c, queue) && 0 < c.limit && queue != []
    ensures var r := MaxNode(c, s, queue, NegInf, PosInf, 0, st);
            !r.st.stop ==> r.consumed >= 1
  {
  }

  /** Successors of a position of the game are positions of the game. */
  lemma SuccessorsInGame(c: Ctx, p: nat, queue: seq<nat>)
    requires ValidCtx(c) && p < |c.game|
    requires forall x :: x in queue ==> x in c.game[p].successors
    ensures InGame(c, queue)
  {
    forall i | 0 <= i < |queue|
      ensures queue[i] < |c.game|
    {
      assert queue[i] in c.game[p].successors;
    }
  }
}
