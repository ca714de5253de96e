/**
 * The bot itself: the repetition table it keeps between moves, the iterative
 * deepening of chooseMove, the alpha-beta methods findMax and findMin over
 * `Tree.GameTree` nodes, and the evaluator that accumulates its factors in
 * fields.  Each search method is proved to compute the matching function of
 * `Search`, and the evaluator to compute `Scoring.Evaluation`.
 */
module Bot {
  import opened Wrappers
  import opened Scores
  import opened Chess
  import opened Scoring
  import opened Search
  import opened Tree
  import opened Passes

  /** The nodes `kids` are nodes of `game` for the positions `states`, in order, keyed by their fingerprints. */
  ghost predicate Stands(kids: seq<GameTree>, game: Game, states: seq<nat>) {
    |kids| == |states| && forall k :: 0 <= k < |kids| ==> kids[k].game == game && kids[k].state == states[k] && kids[k].Keyed()
  }

  /** The draw flags reorderGameTree reads off the nodes are the table's verdicts on their positions. */
  lemma DrawsMatch(kids: seq<GameTree>, game: Game, states: seq<nat>, t: Table)
    requires WellFormed(game) && Stands(kids, game, states)
    ensures forall k :: 0 <= k < |states| ==> states[k] < |game|
    ensures DrawsOf(kids, t) == Repeats(game, t, states)
  {
  }

  /** The kept nodes' fingerprints and states, as the capture partition reads them, are those of their positions. */
  lemma LabelsMatch(kids: seq<GameTree>, game: Game, states: seq<nat>, ks: seq<nat>)
    requires WellFormed(game) && Stands(kids, game, states) && InRange(ks, |kids|)
    ensures forall k :: 0 <= k < |states| ==> states[k] < |game|
    ensures LabelsOf(kids, ks) == KeptLabels(game, states, ks)
  {
  }

  /** The table at the start of a move: cleared when a new game for the other side begins. */
  function TableAtStart(t: Table, mySide: Option<Side>, player: Side): (r: Table)
    ensures mySide.Some? && mySide != Some(player) ==> r == map[]
    ensures mySide == None || mySide == Some(player) ==> r == t
  {
    if mySide != Some(player) && mySide != None then map[] else t
  }

  /** The table the searches of a move read: the table at its start with the opponent's move recorded. */
  function SearchTable(t: Table, mySide: Option<Side>, game: Game, s: nat): (r: Table)
    requires WellFormed(game) && s < |game|
    ensures Some(Fingerprint(game[s].text)) in r
    ensures mySide.Some? && mySide != Some(game[s].player) ==> r.Keys == {Some(Fingerprint(game[s].text))}
  {
    Recorded(TableAtStart(t, mySide, game[s].player), Some(Fingerprint(game[s].text)))
  }

  /** The nodes `kids` stand for `states`, in order, and hold `values`. */
  ghost predicate Holding(kids: seq<GameTree>, states: seq<nat>, values: seq<Score>)
    reads kids
  {
    |kids| == |states| == |values| &&
    forall k :: 0 <= k < |kids| ==> kids[k].state == states[k] && kids[k].value == values[k]
  }

  /**
   * Where findMax's child loop stands: `done` are the values of the moves of
   * `q0` expanded so far, `q` the moves still pending, and the rest of the
   * loop from here completes what the whole loop returns (`goal`, `vals`).
   */
  ghost predicate MaxLoopAt(c: Ctx, q0: seq<nat>, goal: Outcome, vals: seq<Score>, done: seq<Score>,
                            q: seq<nat>, alpha: Score, beta: Score, depth: int, max: Score, st: SearchState)
  {
    && ValidCtx(c) && InGame(c, q) && 0 <= depth < c.limit
    && |done| <= |q0| && q == q0[|done|..]
    && Shift(MaxLoop(c, q, alpha, beta, depth, max, st), |done|) == goal
    && done + MaxLoopValues(c, q, alpha, beta, depth, max, st) == vals
  }

  /** The children a search left on a valid root stand for the moves it searched and hold their values. */
  lemma ChildrenStand(root: GameTree, states: seq<nat>, values: seq<Score>)
    requires root.Valid() && Holding(root.children, states, values)
    ensures Stands(root.children, root.game, states) && ValuesOf(root.children) == values
  {
    forall k | 0 <= k < |root.children|
      ensures root.children[k].game == root.game && root.children[k].Keyed()
    {
      assert root.children[k] in root.children;
    }
  }

  /**
   * One step of findMax's child loop, as MaxStep reports it, moves MaxLoopAt
   * on by one move, or, at a cut-off, completes the loop's outcome and values.
   */
  lemma MaxLoopAdvances(c: Ctx, q0: seq<nat>, goal: Outcome, vals: seq<Score>, done: seq<Score>,
                        q: seq<nat>, alpha: Score, beta: Score, depth: int, max: Score, st: SearchState,
                        v: Score, alpha': Score, max': Score, st': SearchState, cutOff: bool)
    requires MaxLoopAt(c, q0, goal, vals, done, q, alpha, beta, depth, max, st) && q != []
    requires var o := MaxLoop(c, q, alpha, beta, depth, max, st);
             if cutOff then o == Outcome(max', st', 1)
             else o == Shift(MaxLoop(c, q[1..], alpha', beta, depth, max', st'), 1)
    requires MaxLoopValues(c, q, alpha, beta, depth, max, st)
             == [v] + if cutOff then [] else MaxLoopValues(c, q[1..], alpha', beta, depth, max', st')
    ensures cutOff ==> |done + [v]| <= |q0| && q[1..] == q0[|done + [v]|..]
                       && goal == Outcome(max', st', |done + [v]|) && vals == done + [v]
    ensures !cutOff ==> MaxLoopAt(c, q0, goal, vals, done + [v], q[1..], alpha', beta, depth, max', st')
  {
    if !cutOff {
      Regroup(done, [v], MaxLoopValues(c, q[1..], alpha', beta, depth, max', st'));
    }
  }

  /** Before its first step, findMax's child loop stands at the start of the whole loop. */
  lemma MaxLoopStarts(c: Ctx, q0: seq<nat>, alpha: Score, beta: Score, depth: int, st: SearchState)
    requires ValidCtx(c) && InGame(c, q0) && 0 <= depth < c.limit
    ensures MaxLoopAt(c, q0, MaxLoop(c, q0, alpha, beta, depth, NegInf, st),
                      MaxLoopValues(c, q0, alpha, beta, depth, NegInf, st), [], q0, alpha, beta, depth, NegInf, st)
  {
    assert q0[0..] == q0;
  }

  /**
   * What findMax from the root and the reorder after it report, in terms of
   * the search context `c` of the pass, is the pass PassSearched describes.
   */
  lemma PassOfSearch(game: Game, s: nat, t: Table, c: Ctx, p: Pass)
    requires WellFormed(game) && s < |game| && 0 < p.limit && c == Ctx(game, game[s].player, p.limit, t)
    requires InGame(c, p.queue)
    requires var o := MaxNode(c, s, p.queue, NegInf, PosInf, 0, SearchState(false, p.count));
             p.value == o.value && p.stopped == o.st.stop && p.endCount == o.st.count
    requires p.values == MaxNodeValues(c, s, p.queue, NegInf, PosInf, 0, SearchState(false, p.count))
    requires InRange(p.kept, |p.values|) && SortedStable(p.values, p.kept)
    requires |p.values| <= |p.queue| && DrawPolicy(p.values, Repeats(game, t, p.queue[..|p.values|]), p.kept)
    requires p.best == null <==> p.kept == []
    requires p.best != null ==> p.best.state == p.queue[..|p.values|][p.kept[0]] && p.best.key == Fingerprint(game[p.best.state].text)
    requires p.leftQueue == StatesOf(CaptureFirst(KeptLabels(game, p.queue[..|p.values|], p.kept)))
    ensures Shaped(game, s, t, p)
    ensures p.value == PassOutcome(game, s, t, p).value && p.stopped == PassOutcome(game, s, t, p).st.stop
    ensures p.values == MaxNodeValues(Ctx(game, game[s].player, p.limit, t), s, p.queue, NegInf, PosInf, 0, SearchState(false, p.count))
    ensures SortedStable(p.values, p.kept) && DrawPolicy(p.values, Repeats(game, t, Searched(p)), p.kept)
    ensures (p.best == null <==> p.kept == [])
    ensures p.best != null ==> p.best.state == Searched(p)[p.kept[0]] && p.best.key == Fingerprint(game[p.best.state].text)
    ensures p.endCount == PassOutcome(game, s, t, p).st.count
    ensures p.leftQueue == NextQueue(game, s, t, p)
  {
  }

  lemma HoldingGrows(kids: seq<GameTree>, states: seq<nat>, values: seq<Score>, child: GameTree, s: nat, v: Score)
    requires Holding(kids, states, values) && child.state == s && child.value == v
    ensures Holding(kids + [child], states + [s], values + [v])
  {
  }

  lemma Regroup<T>(a: seq<T>, b: seq<T>, c: seq<T>)
    ensures (a + b) + c == a + (b + c)
  {
  }

  lemma TakeOneMore<T>(q: seq<T>, n: nat)
    requires n < |q|
    ensures q[..n] + [q[n]] == q[..n + 1]
  {
  }

  class MyBot {
    /** How often each fingerprint has been seen in this game. */
    var previousStatesMap: Table
    /** The side the bot plays; none before its first move. */
    var mySide: Option<Side>
    var depthLimit: int
    /** Set once the node budget is exhausted; reset only at the start of a move. */
    var stopSearching: bool
    var captureTheKing: bool
    var totalExtraFactor: real
    var bestCapture: real
    /** The number of positions expanded from the root of the current move. */
    var descendants: int

    constructor ()
      ensures previousStatesMap == map[] && mySide == None && !captureTheKing
    {
      captureTheKing := false;
      mySide := None;
      previousStatesMap := map[];
    }

    /** What the search of the current move reads and never changes. */
    function Context(game: Game): Ctx
      reads this`mySide, this`depthLimit, this`previousStatesMap
      requires mySide.Some?
    {
      Ctx(game, mySide.value, depthLimit, previousStatesMap)
    }

    /** The stop flag and the descendant count, as the search functions thread them. */
    function Progress(): SearchState
      reads this`stopSearching, this`descendants
    {
      SearchState(stopSearching, descendants)
    }

    // ----- Choosing a move -----

    /** Counts a position in the repetition table: 1 when first seen, 2 after that. */
    method Record(name: Option<string>)
      modifies this`previousStatesMap
      ensures previousStatesMap == Recorded(old(previousStatesMap), name)
    {
      if name !in previousStatesMap {
        previousStatesMap := previousStatesMap[name := 1];
      } else {
        previousStatesMap := previousStatesMap[name := 2];
      }
    }

    /**
     * chooseMove: resets the bot when a game for the other side begins, records
     * the opponent's move, and deepens the search from the root `s` with depth
     * limits 2, 4 and 5. Each pass runs findMax on the root and reorders its
     * children; a pass the budget stops is discarded, otherwise its best child
     * becomes the choice. The chosen position is recorded and returned; when
     * even the first pass is stopped that is the root itself.
     */
    method ChooseMove(game: Game, s: nat) returns (next: nat, ghost passes: seq<Pass>)
      requires WellFormed(game) && s < |game| && game[s].successors != []
      modifies this
      ensures var t := SearchTable(old(previousStatesMap), old(mySide), game, s);
              && Deepened(game, s, t, passes)
              && (passes[0].stopped ==> next == s && previousStatesMap == Recorded(t, None))
              && (!passes[0].stopped ==>
                    && Settled(passes) != null
                    && next == Settled(passes).state && next in game[s].successors
                    && previousStatesMap == Recorded(t, Some(Fingerprint(game[next].text))))
      ensures mySide == Some(game[s].player)
      ensures captureTheKing == if old(mySide).Some? && old(mySide) != Some(game[s].player) then false else old(captureTheKing)
    {
      StartMove(game, s);
      var root := new GameTree(game, s, null);
      var chosenNode;
      chosenNode, passes := Deepen(root);
      Record(chosenNode.stateName);
      next := chosenNode.state;
    }

    /**
     * The deepening loop of chooseMove: search passes at depths 2, 4 and 5
     * until the budget stops one; each pass that finishes replaces the chosen
     * node with its best child, a stopped pass leaves the previous choice (the
     * root itself when the first pass is stopped).
     */
    method Deepen(root: GameTree) returns (chosenNode: GameTree, ghost passes: seq<Pass>)
      requires WellFormed(root.game) && root.state < |root.game|
      requires mySide == Some(root.game[root.state].player) && depthLimit == DepthLimits[0] && !stopSearching && descendants == 0
      requires root.Valid() && root.parent == null && root.children == []
      requires root.nextStates == root.game[root.state].successors != []
      modifies this`stopSearching, this`descendants, this`totalExtraFactor, this`bestCapture, this`depthLimit
      modifies root`nextStates, root`children
      ensures Deepened(root.game, root.state, previousStatesMap, passes)
      ensures passes[0].stopped ==> chosenNode == root
      ensures !passes[0].stopped ==>
                && chosenNode == Settled(passes) && chosenNode.parent == root
                && chosenNode.state in root.game[root.state].successors
                && chosenNode.stateName == Some(chosenNode.key)
                && chosenNode.key == Fingerprint(root.game[chosenNode.state].text)
    {
      ghost var game, s, t := root.game, root.state, previousStatesMap;
      chosenNode := root;
      passes := [];
      ghost var last: Pass :| true;
      while true
        invariant 0 <= |passes| < |DepthLimits| && depthLimit == DepthLimits[|passes|] && !stopSearching
        invariant root.Valid() && root.children == []
        invariant Chained(game, s, t, passes)
        invariant |passes| == 0 ==> root.nextStates == game[s].successors && descendants == 0 && chosenNode == root
        invariant |passes| > 0 ==>
                    && last == passes[|passes| - 1] && !passes[0].stopped && !last.stopped
                    && descendants == last.endCount && root.nextStates != [] && root.nextStates == last.leftQueue
                    && chosenNode == last.best && chosenNode.parent == root
                    && chosenNode.stateName == Some(chosenNode.key)
        decreases |DepthLimits| - |passes|
      {
        var maxNode;
        ghost var pass;
        maxNode, pass := RunPass(root, passes);
        passes, last := passes + [pass], pass;
        if stopSearching {
          break;
        }
        chosenNode := maxNode;
        if depthLimit == 5 {
          break;
        }
        depthLimit := depthLimit + if depthLimit < 4 then 2 else 1;
      }
      if !passes[0].stopped {
        SettledIsMove(game, s, t, passes);
      }
    }

    /**
     * The opening of chooseMove: a change of side (a new game) clears the
     * repetition table and the king-capture flag, the current state is
     * recorded, and the first pass is set up at depth 2 with the budget's
     * counter and stop flag cleared.
     */
    method StartMove(game: Game, s: nat)
      requires WellFormed(game) && s < |game|
      modifies this`previousStatesMap, this`captureTheKing, this`mySide, this`depthLimit, this`stopSearching, this`descendants
      ensures previousStatesMap == SearchTable(old(previousStatesMap), old(mySide), game, s)
      ensures mySide == Some(game[s].player) && depthLimit == DepthLimits[0] && !stopSearching && descendants == 0
      ensures captureTheKing == if old(mySide).Some? && old(mySide) != Some(game[s].player) then false else old(captureTheKing)
    {
      if mySide != Some(game[s].player) {
        if mySide != None {
          captureTheKing := false;
          previousStatesMap := map[];
        }
      }
      Record(Some(Fingerprint(game[s].text)));
      mySide := Some(game[s].player);
      depthLimit := 2;
      stopSearching := false;
      descendants := 0;
    }

    /** One iteration of the deepening loop, summarised as the Pass it performs. */
    method RunPass(root: GameTree, ghost passes: seq<Pass>) returns (maxNode: GameTree?, ghost pass: Pass)
      requires WellFormed(root.game) && root.state < |root.game| && mySide == Some(root.game[root.state].player)
      requires root.Valid() && root.parent == null && root.children == [] && !stopSearching
      requires Chained(root.game, root.state, previousStatesMap, passes) && |passes| < |DepthLimits|
      requires depthLimit == DepthLimits[|passes|]
      requires passes == [] ==> root.nextStates == root.game[root.state].successors && descendants == 0
      requires passes != [] ==>
                 var last := passes[|passes| - 1];
                 !last.stopped && descendants == last.endCount && root.nextStates != [] && root.nextStates == last.leftQueue
      modifies this`stopSearching, this`descendants, this`totalExtraFactor, this`bestCapture
      modifies root`nextStates, root`children
      ensures root.Valid() && root.children == []
      ensures pass.limit == depthLimit && pass.queue == old(root.nextStates) && pass.count == old(descendants)
      ensures pass.stopped == stopSearching && pass.best == maxNode
      ensures pass.endCount == descendants && pass.leftQueue == root.nextStates
      ensures Chained(root.game, root.state, previousStatesMap, passes + [pass])
      ensures !stopSearching && old(root.nextStates) != [] ==>
                && maxNode != null && maxNode.parent == root && maxNode.state in root.game[root.state].successors
                && maxNode.stateName == Some(maxNode.key) && root.nextStates != []
                && maxNode.key == Fingerprint(root.game[maxNode.state].text)
    {
      SuccessorsInGame(Context(root.game), root.state, root.nextStates);
      maxNode, pass := SearchPass(root);
      ChainedGrows(root.game, root.state, previousStatesMap, passes, pass);
    }

    /**
     * One deepening pass of chooseMove: findMax from the root with an open
     * window, then reorderGameTree, which leaves the root childless with its
     * kept moves queued again, captures first, and returns the best child.
     * The Pass it returns records the values findMax gave the moves it
     * searched and the indices of the moves the reorder kept, in their new
     * order.
     */
    method SearchPass(root: GameTree) returns (maxNode: GameTree?, ghost pass: Pass)
      requires root.Valid() && mySide == Some(root.game[root.state].player)
      requires root.parent == null && root.children == [] && 0 < depthLimit && !stopSearching
      requires InGame(Context(root.game), root.nextStates)
      modifies this`stopSearching, this`descendants, this`totalExtraFactor, this`bestCapture
      modifies root`nextStates, root`children
      ensures root.Valid() && root.children == []
      ensures pass.limit == depthLimit && pass.queue == old(root.nextStates) && pass.count == old(descendants)
      ensures pass.stopped == stopSearching && pass.best == maxNode
      ensures pass.endCount == descendants && pass.leftQueue == root.nextStates
      ensures Shaped(root.game, root.state, previousStatesMap, pass)
      ensures pass.value == PassOutcome(root.game, root.state, previousStatesMap, pass).value && pass.stopped == PassOutcome(root.game, root.state, previousStatesMap, pass).st.stop
      ensures pass.values == MaxNodeValues(Ctx(root.game, root.game[root.state].player, pass.limit, previousStatesMap), root.state, pass.queue, NegInf, PosInf, 0, SearchState(false, pass.count))
      ensures SortedStable(pass.values, pass.kept) && DrawPolicy(pass.values, Repeats(root.game, previousStatesMap, Searched(pass)), pass.kept)
      ensures (pass.best == null <==> pass.kept == [])
      ensures pass.best != null ==> pass.best.state == Searched(pass)[pass.kept[0]] && pass.best.key == Fingerprint(root.game[pass.best.state].text)
      ensures pass.endCount == PassOutcome(root.game, root.state, previousStatesMap, pass).st.count
      ensures pass.leftQueue == NextQueue(root.game, root.state, previousStatesMap, pass)
      ensures !stopSearching && old(root.nextStates) != [] ==>
                && maxNode != null && maxNode.parent == root && maxNode.state in root.game[root.state].successors
                && maxNode.stateName == Some(maxNode.key) && root.nextStates != []
    {
      ghost var q, count := root.nextStates, descendants;
      var value;
      ghost var kids;
      value, kids := FindMax(root, NegInf, PosInf, 0);
      ghost var values := MaxNodeValues(Context(root.game), root.state, q, NegInf, PosInf, 0, old(Progress()));
      ghost var searched := q[..|values|];
      ChildrenStand(root, searched, values);
      if q != [] {
        MaxNodeExpands(Context(root.game), root.state, q, old(Progress()));
      }
      ghost var kept;
      maxNode, kept := ReorderRoot(root, searched, values);
      pass := Pass(depthLimit, q, count, value, stopSearching, values, kept, maxNode, descendants, root.nextStates);
      assert pass.values == values && pass.kept == kept && pass.queue[..|pass.values|] == searched;
      assert DrawPolicy(values, Repeats(root.game, previousStatesMap, searched), kept);
      PassOfSearch(root.game, root.state, previousStatesMap, Context(root.game), pass);
    }

    /**
     * reorderGameTree on the root after a pass, its children standing for the
     * moves `states` that the pass searched and holding their `values`: the
     * kept moves are queued again, captures first, and the best of them is
     * returned, named by its fingerprint.
     */
    method ReorderRoot(root: GameTree, ghost states: seq<nat>, ghost values: seq<Score>)
      returns (maxNode: GameTree?, ghost kept: seq<nat>)
      requires root.Valid() && Stands(root.children, root.game, states) && ValuesOf(root.children) == values
      modifies root`children, root`nextStates, root.children
      ensures root.Valid() && root.children == []
      ensures forall k :: 0 <= k < |states| ==> states[k] < |root.game|
      ensures InRange(kept, |values|) && SortedStable(values, kept)
      ensures DrawPolicy(values, Repeats(root.game, previousStatesMap, states), kept)
      ensures maxNode == null <==> kept == []
      ensures maxNode != null ==>
                && maxNode.parent == root && maxNode.state == states[kept[0]] && maxNode.state in root.game[root.state].successors
                && maxNode.stateName == Some(maxNode.key) && maxNode.key == Fingerprint(root.game[maxNode.state].text)
      ensures root.nextStates == StatesOf(CaptureFirst(KeptLabels(root.game, states, kept)))
      ensures |root.nextStates| == |kept|
    {
      ghost var c0 := root.children;
      DrawsMatch(c0, root.game, states, previousStatesMap);
      maxNode, kept := root.ReorderGameTree(previousStatesMap);
      LabelsMatch(c0, root.game, states, kept);
      ghost var ls := LabelsOf(c0, kept);
      CaptureFirstPermutes(ls);
      assert |CaptureFirst(ls)| == |multiset(CaptureFirst(ls))| == |ls|;
    }

    // ----- The evaluator -----

    /**
     * findBestCapture for one probed square: the running best capture rises to
     * the value of an enemy piece found there.
     */
    method FindBestCapture(probe: Probe, mover: Side)
      modifies this`bestCapture
      ensures bestCapture >= old(bestCapture) && bestCapture >= CaptureValue(probe, mover)
      ensures bestCapture == old(bestCapture) || bestCapture == CaptureValue(probe, mover)
    {
      var captureValue := 0.0;
      if probe.Occupied? {
        if probe.owner != mover {
          captureValue := Material(probe.kind);
        }
      }
      bestCapture := RMax(bestCapture, captureValue);
    }

    /**
     * getPotentialFactor: nothing for a piece whose side is not to move;
     * otherwise every probed square goes through findBestCapture and the
     * result is a third of the piece's mobility, halved first for a queen.
     */
    method GetPotentialFactor(pos: Position, piece: Piece) returns (r: real)
      modifies this`bestCapture
      ensures r == PotentialFactor(pos, piece)
      ensures bestCapture == Probed(old(bestCapture), ProbesOf(pos, piece), piece.owner)
    {
      if piece.owner != pos.player {
        return 0.0;
      }
      var k := 0;
      while k < |piece.probes|
        invariant 0 <= k <= |piece.probes|
        invariant bestCapture == Probed(old(bestCapture), piece.probes[..k], piece.owner)
      {
        assert piece.probes[..k + 1][..k] == piece.probes[..k];
        FindBestCapture(piece.probes[k], piece.owner);
        k := k + 1;
      }
      assert piece.probes[..k] == piece.probes;
      var moveFactor := piece.mobility as real;
      if piece.kind == Queen {
        moveFactor := moveFactor / 2.0;
      }
      r := moveFactor / 3.0;
    }

    /**
     * getPieceValue: returns the piece's material value; with extra factors,
     * adds the position, potential and opening factors of an own piece to the
     * running total, or subtracts the potential of an enemy piece when the
     * enemy is to move.
     */
    method GetPieceValue(piece: Piece, pos: Position, withExtraFactor: bool) returns (value: real)
      requires mySide.Some?
      modifies this`totalExtraFactor, this`bestCapture
      ensures value == Material(piece.kind)
      ensures totalExtraFactor == old(totalExtraFactor) + if withExtraFactor then PieceExtra(pos, piece, mySide.value) else 0.0
      ensures bestCapture == if withExtraFactor then Probed(old(bestCapture), ProbesOf(pos, piece), piece.owner)
                             else old(bestCapture)
    {
      value := Material(piece.kind);
      if withExtraFactor {
        if piece.owner == mySide.value {
          var posFactor := PositionFactor(piece, mySide.value, pos.turn);
          var pttFactor := GetPotentialFactor(pos, piece);
          var oFactor := OpeningFactor(piece, mySide.value, value);
          totalExtraFactor := totalExtraFactor + (posFactor + pttFactor + oFactor);
        } else if pos.player != mySide.value {
          var pttFactor := GetPotentialFactor(pos, piece);
          totalExtraFactor := totalExtraFactor - pttFactor;
        }
      }
    }

    /**
     * evaluate: the signed material of every piece, the extra factors halved
     * until below a pawn's value, and the best capture signed by whose turn it
     * is.
     */
    method Evaluate(pos: Position, withExtraFactor: bool) returns (r: real)
      requires mySide.Some?
      modifies this`totalExtraFactor, this`bestCapture
      ensures r == Evaluation(pos, mySide.value, withExtraFactor)
      ensures totalExtraFactor == Clamp(RawExtra(pos, mySide.value, withExtraFactor))
      ensures bestCapture == SignedCapture(pos, mySide.value, RawCapture(pos, withExtraFactor))
    {
      var side := mySide.value;
      var value := SumPieces(pos, withExtraFactor);
      var castlingFactor := if pos.player == side then CastlingFactor(pos, side) else 0.0;
      if withExtraFactor {
        totalExtraFactor := totalExtraFactor + castlingFactor;
      }
      HalveExtraFactor();
      bestCapture := if pos.player == side then bestCapture else -bestCapture;
      r := value + totalExtraFactor + bestCapture;
    }

    /**
     * The piece loop of evaluate: every piece's material value, added for the
     * bot's pieces and subtracted for the opponent's, while getPieceValue
     * accumulates the extra factors and the best capture from zero.
     */
    method SumPieces(pos: Position, withExtraFactor: bool) returns (value: real)
      requires mySide.Some?
      modifies this`totalExtraFactor, this`bestCapture
      ensures value == MaterialSum(pos.pieces, mySide.value)
      ensures totalExtraFactor == if withExtraFactor then ExtraSum(pos, pos.pieces, mySide.value) else 0.0
      ensures bestCapture == if withExtraFactor then BestCapture(pos, pos.pieces) else 0.0
    {
      var side := mySide.value;
      value := 0.0;
      totalExtraFactor := 0.0;
      bestCapture := 0.0;
      var i := 0;
      while i < |pos.pieces|
        invariant 0 <= i <= |pos.pieces|
        invariant value == MaterialSum(pos.pieces[..i], side)
        invariant totalExtraFactor == if withExtraFactor then ExtraSum(pos, pos.pieces[..i], side) else 0.0
        invariant bestCapture == if withExtraFactor then BestCapture(pos, pos.pieces[..i]) else 0.0
      {
        value := AddPiece(pos, i, withExtraFactor, value);
        i := i + 1;
      }
      assert pos.pieces[..i] == pos.pieces;
    }

    /** One iteration of the piece loop of evaluate: the sums extended by piece `i`. */
    method AddPiece(pos: Position, i: int, withExtraFactor: bool, value: real) returns (value': real)
      requires mySide.Some? && 0 <= i < |pos.pieces|
      requires value == MaterialSum(pos.pieces[..i], mySide.value)
      requires totalExtraFactor == if withExtraFactor then ExtraSum(pos, pos.pieces[..i], mySide.value) else 0.0
      requires bestCapture == if withExtraFactor then BestCapture(pos, pos.pieces[..i]) else 0.0
      modifies this`totalExtraFactor, this`bestCapture
      ensures value' == MaterialSum(pos.pieces[..i + 1], mySide.value)
      ensures totalExtraFactor == if withExtraFactor then ExtraSum(pos, pos.pieces[..i + 1], mySide.value) else 0.0
      ensures bestCapture == if withExtraFactor then BestCapture(pos, pos.pieces[..i + 1]) else 0.0
    {
      var piece := pos.pieces[i];
      SumsStep(pos, i, mySide.value);
      var v := GetPieceValue(piece, pos, withExtraFactor);
      if piece.owner == mySide.value {
        value' := value + v;
      } else {
        value' := value - v;
      }
    }

    /**
     * The clamp loop of evaluate: halves the extra-factor total until its
     * magnitude is below 10, the value of a pawn.
     */
    method HalveExtraFactor()
      modifies this`totalExtraFactor
      ensures totalExtraFactor == Clamp(old(totalExtraFactor))
    {
      while Abs(totalExtraFactor) >= 10.0
        invariant Clamp(totalExtraFactor) == Clamp(old(totalExtraFactor))
        decreases (Abs(totalExtraFactor) / 10.0).Floor
      {
        totalExtraFactor := totalExtraFactor * 0.5;
      }
    }

    // ----- The search -----

    /**
     * findMax: the value MaxNode gives the node's pending moves, with the stop
     * flag and the descendant count it leaves and the pending moves it
     * consumes. `kids` are the new nodes for the consumed moves, in order, each
     * holding the value MaxNodeValues gives it; the root keeps them as its
     * children.
     */
    method FindMax(tree: GameTree, alpha: Score, beta: Score, depth: int) returns (r: Score, ghost kids: seq<GameTree>)
      requires mySide.Some? && tree.Valid() && 0 <= depth <= depthLimit
      requires InGame(Context(tree.game), tree.nextStates)
      modifies this`stopSearching, this`descendants, this`totalExtraFactor, this`bestCapture
      modifies tree`nextStates, tree`children
      ensures tree.Valid()
      ensures var o := MaxNode(Context(tree.game), tree.state, old(tree.nextStates), alpha, beta, depth, old(Progress()));
              r == o.value && Progress() == o.st && tree.nextStates == old(tree.nextStates)[o.consumed..]
      ensures var vs := MaxNodeValues(Context(tree.game), tree.state, old(tree.nextStates), alpha, beta, depth, old(Progress()));
              |kids| <= |old(tree.nextStates)| && Holding(kids, old(tree.nextStates)[..|kids|], vs)
      ensures fresh(kids)
      ensures tree.children == if tree.parent == null then old(tree.children) + kids else old(tree.children)
      decreases depthLimit - depth, 4
    {
      kids := [];
      if stopSearching {
        return NegInf, kids;
      } else if descendants > Budget {
        stopSearching := true;
        return NegInf, kids;
      }
      if depth == depthLimit {
        var e := Evaluate(tree.Position(), true);
        return Fin(e), kids;
      }
      r, kids := MaxChildren(tree, alpha, beta, depth);
    }

    /**
     * The child loop of findMax: each pending move is expanded and searched
     * with findMin in turn, until one reaches beta; the result is MaxLoop's,
     * and the new nodes hold the values MaxLoopValues gives them.
     */
    method MaxChildren(tree: GameTree, alpha: Score, beta: Score, depth: int) returns (r: Score, ghost kids: seq<GameTree>)
      requires mySide.Some? && tree.Valid() && 0 <= depth < depthLimit
      requires InGame(Context(tree.game), tree.nextStates)
      modifies this`stopSearching, this`descendants, this`totalExtraFactor, this`bestCapture
      modifies tree`nextStates, tree`children
      ensures tree.Valid()
      ensures var o := old(MaxLoop(Context(tree.game), tree.nextStates, alpha, beta, depth, NegInf, Progress()));
              r == o.value && Progress() == o.st && tree.nextStates == old(tree.nextStates)[o.consumed..]
      ensures var vs := old(MaxLoopValues(Context(tree.game), tree.nextStates, alpha, beta, depth, NegInf, Progress()));
              |kids| <= |old(tree.nextStates)| && Holding(kids, old(tree.nextStates)[..|kids|], vs)
      ensures forall k :: 0 <= k < |kids| ==> fresh(kids[k])
      ensures tree.children == if tree.parent == null then old(tree.children) + kids else old(tree.children)
      decreases depthLimit - depth, 3
    {
      ghost var q0 := tree.nextStates;
      ghost var n0 := tree.children;
      ghost var goal := MaxLoop(Context(tree.game), q0, alpha, beta, depth, NegInf, Progress());
      ghost var vals := MaxLoopValues(Context(tree.game), q0, alpha, beta, depth, NegInf, Progress());
      MaxLoopStarts(Context(tree.game), q0, alpha, beta, depth, Progress());
      ghost var done: seq<Score> := [];
      kids := [];
      ghost var born: set<GameTree> := {};
      var max := NegInf;
      var a := alpha;
      while tree.HasNextChild()
        invariant tree.Valid()
        invariant MaxLoopAt(Context(tree.game), q0, goal, vals, done, tree.nextStates, a, beta, depth, max, Progress())
        invariant |kids| == |done| && Holding(kids, q0[..|kids|], done)
        invariant fresh(born) && forall k :: 0 <= k < |kids| ==> kids[k] in born
        invariant tree.children == if tree.parent == null then n0 + kids else n0
        decreases |tree.nextStates|
      {
        var cutOff;
        ghost var v, child;
        max, a, cutOff, v, child := MaxRound(tree, a, beta, depth, max, q0, n0, goal, vals, done, kids);
        done, kids, born := done + [v], kids + [child], born + {child};
        if cutOff {
          return max, kids;
        }
      }
      return max, kids;
    }

    /**
     * One pass of MaxChildren's loop, with the loop's bookkeeping: the moves
     * `q0` pending at the start, the children `n0` the node had then, what the
     * whole loop returns (`goal`, `vals`), and the values `done` and new nodes
     * `kids` of the moves expanded so far.
     */
    method MaxRound(tree: GameTree, alpha: Score, beta: Score, depth: int, max: Score,
                    ghost q0: seq<nat>, ghost n0: seq<GameTree>, ghost goal: Outcome, ghost vals: seq<Score>,
                    ghost done: seq<Score>, ghost kids: seq<GameTree>)
      returns (max': Score, alpha': Score, cutOff: bool, ghost v: Score, ghost child: GameTree)
      requires mySide.Some? && tree.Valid() && tree.nextStates != []
      requires MaxLoopAt(Context(tree.game), q0, goal, vals, done, tree.nextStates, alpha, beta, depth, max, Progress())
      requires |kids| == |done| && Holding(kids, q0[..|kids|], done)
      requires tree.children == if tree.parent == null then n0 + kids else n0
      modifies this`stopSearching, this`descendants, this`totalExtraFactor, this`bestCapture
      modifies tree`nextStates, tree`children
      ensures tree.Valid()
      ensures cutOff ==> |done + [v]| <= |q0| && tree.nextStates == q0[|done + [v]|..]
                         && goal == Outcome(max', Progress(), |done + [v]|) && vals == done + [v]
      ensures !cutOff ==> MaxLoopAt(Context(tree.game), q0, goal, vals, done + [v], tree.nextStates, alpha', beta, depth, max', Progress())
      ensures Holding(kids + [child], q0[..|kids + [child]|], done + [v])
      ensures fresh(child)
      ensures tree.children == if tree.parent == null then n0 + (kids + [child]) else n0
      decreases depthLimit - depth, 2
    {
      ghost var q, st := tree.nextStates, Progress();
      max', alpha', cutOff, v, child := MaxStep(tree, alpha, beta, depth, max);
      MaxLoopAdvances(Context(tree.game), q0, goal, vals, done, q, alpha, beta, depth, max, st, v, alpha', max', Progress(), cutOff);
      Regroup(n0, kids, [child]);
      HoldingGrows(kids, q0[..|kids|], done, child, q0[|kids|], v);
      TakeOneMore(q0, |kids|);
    }

    /**
     * One pass of findMax's child loop: the next child's value raises the
     * running maximum; at or above beta the loop is cut off with one more than
     * the maximum, otherwise alpha rises to it. `v` is the value stored in the
     * new node `child`.
     */
    method MaxStep(tree: GameTree, alpha: Score, beta: Score, depth: int, max: Score)
      returns (max': Score, alpha': Score, cutOff: bool, ghost v: Score, ghost child: GameTree)
      requires mySide.Some? && tree.Valid() && 0 <= depth < depthLimit && tree.nextStates != []
      requires InGame(Context(tree.game), tree.nextStates)
      modifies this`stopSearching, this`descendants, this`totalExtraFactor, this`bestCapture
      modifies tree`nextStates, tree`children
      ensures tree.Valid() && tree.nextStates == old(tree.nextStates[1..])
      ensures var o := MaxLoop(Context(tree.game), old(tree.nextStates), alpha, beta, depth, max, old(Progress()));
              if cutOff then o == Outcome(max', Progress(), 1)
              else o == Shift(MaxLoop(Context(tree.game), tree.nextStates, alpha', beta, depth, max', Progress()), 1)
      ensures MaxLoopValues(Context(tree.game), old(tree.nextStates), alpha, beta, depth, max, old(Progress()))
              == [v] + if cutOff then [] else MaxLoopValues(Context(tree.game), tree.nextStates, alpha', beta, depth, max', Progress())
      ensures fresh(child) && child.state == old(tree.nextStates[0]) && child.value == v
      ensures tree.children == if tree.parent == null then old(tree.children) + [child] else old(tree.children)
      decreases depthLimit - depth, 1
    {
      var value;
      value, child := ExpandMax(tree, alpha, beta, depth);
      v := value;
      max' := Max(max, value);
      if Le(beta, max') {
        max', alpha', cutOff := Inc(max'), alpha, true;
        return;
      }
      alpha' := Max(alpha, max');
      cutOff := false;
    }

    /**
     * One pass of findMax's child loop up to the new running maximum: the next
     * pending move becomes a new node `child`, the expansion is counted, and
     * the node's value is what findMin finds for it.
     */
    method ExpandMax(tree: GameTree, alpha: Score, beta: Score, depth: int) returns (v: Score, ghost child: GameTree)
      requires mySide.Some? && tree.Valid() && 0 <= depth < depthLimit && tree.nextStates != []
      requires InGame(Context(tree.game), tree.nextStates)
      modifies this`stopSearching, this`descendants, this`totalExtraFactor, this`bestCapture
      modifies tree`nextStates, tree`children
      ensures tree.Valid() && tree.nextStates == old(tree.nextStates[1..])
      ensures var s := old(tree.nextStates[0]);
              var o := MinNode(Context(tree.game), s, tree.game[s].successors, alpha, beta, depth + 1,
                               old(Progress()).(count := old(descendants) + 1));
              v == o.value && Progress() == o.st
      ensures fresh(child) && child.state == old(tree.nextStates[0]) && child.value == v
      ensures tree.children == if tree.parent == null then old(tree.children) + [child] else old(tree.children)
      decreases depthLimit - depth, 0
    {
      var node := tree.GetNextChild();
      descendants := descendants + 1;
      v := FindMin(node, alpha, beta, depth + 1);
      node.value := v;
      child := node;
    }

    /**
     * findMin: the value MinNode gives the node's pending moves. A child of the
     * root that is over or would repeat a position for the third time is
     * scored outright; the repetition check names the node when it is not a
     * draw, and no other step changes its name.
     */
    method FindMin(tree: GameTree, alpha: Score, beta: Score, depth: int) returns (r: Score)
      requires mySide.Some? && tree.Valid() && tree.Keyed() && 0 <= depth <= depthLimit
      requires InGame(Context(tree.game), tree.nextStates)
      modifies this`stopSearching, this`descendants, this`totalExtraFactor, this`bestCapture
      modifies tree`nextStates, tree`children, tree`stateName
      ensures tree.Valid()
      ensures var o := MinNode(Context(tree.game), tree.state, old(tree.nextStates), alpha, beta, depth, old(Progress()));
              r == o.value && Progress() == o.st && tree.nextStates == old(tree.nextStates)[o.consumed..]
      ensures tree.stateName == if depth == 1 && !old(stopSearching) && old(descendants) <= Budget && !tree.Position().over
                                   && !IsRepetition(previousStatesMap, Some(tree.key))
                                then Some(tree.key) else old(tree.stateName)
      decreases depthLimit - depth, 3
    {
      if stopSearching {
        return NegInf;
      }
      if descendants > Budget {
        stopSearching := true;
        return NegInf;
      }
      if depth == 1 {
        if tree.Position().over {
          if tree.Position().check {
            return PosInf;
          } else {
            return NegInf;
          }
        }
        var draw := tree.CheckDrawState(tree, previousStatesMap);
        if draw {
          return NegInf;
        }
      }
      if depth == depthLimit {
        var e := Evaluate(tree.Position(), true);
        return Fin(e);
      }
      r := MinChildren(tree, alpha, beta, depth);
    }

    /**
     * The child loop of findMin: each pending move is expanded and searched
     * with findMax in turn, until one reaches alpha; the result is MinLoop's.
     */
    method MinChildren(tree: GameTree, alpha: Score, beta: Score, depth: int) returns (r: Score)
      requires mySide.Some? && tree.Valid() && 0 <= depth < depthLimit
      requires InGame(Context(tree.game), tree.nextStates)
      modifies this`stopSearching, this`descendants, this`totalExtraFactor, this`bestCapture
      modifies tree`nextStates, tree`children
      ensures tree.Valid()
      ensures var o := MinLoop(Context(tree.game), old(tree.nextStates), alpha, beta, depth, PosInf, old(Progress()));
              r == o.value && Progress() == o.st && tree.nextStates == old(tree.nextStates)[o.consumed..]
      decreases depthLimit - depth, 2
    {
      ghost var q0 := tree.nextStates;
      ghost var goal := MinLoop(Context(tree.game), q0, alpha, beta, depth, PosInf, Progress());
      ghost var consumed := 0;
      var min := PosInf;
      var b := beta;
      while tree.HasNextChild()
        invariant tree.Valid() && InGame(Context(tree.game), tree.nextStates)
        invariant consumed <= |q0| && tree.nextStates == q0[consumed..]
        invariant Shift(MinLoop(Context(tree.game), tree.nextStates, alpha, b, depth, min, Progress()), consumed) == goal
        decreases |tree.nextStates|
      {
        var cutOff;
        min, b, cutOff := MinStep(tree, alpha, b, depth, min);
        consumed := consumed + 1;
        if cutOff {
          return min;
        }
      }
      return min;
    }

    /**
     * One pass of findMin's child loop: the next child's value lowers the
     * running minimum; at or below alpha the loop is cut off with one less
     * than the minimum, otherwise beta falls to it.
     */
    method MinStep(tree: GameTree, alpha: Score, beta: Score, depth: int, min: Score)
      returns (min': Score, beta': Score, cutOff: bool)
      requires mySide.Some? && tree.Valid() && 0 <= depth < depthLimit && tree.nextStates != []
      requires InGame(Context(tree.game), tree.nextStates)
      modifies this`stopSearching, this`descendants, this`totalExtraFactor, this`bestCapture
      modifies tree`nextStates, tree`children
      ensures tree.Valid() && tree.nextStates == old(tree.nextStates[1..])
      ensures var o := MinLoop(Context(tree.game), old(tree.nextStates), alpha, beta, depth, min, old(Progress()));
              if cutOff then o == Outcome(min', Progress(), 1)
              else o == Shift(MinLoop(Context(tree.game), tree.nextStates, alpha, beta', depth, min', Progress()), 1)
      decreases depthLimit - depth, 1
    {
      var v := ExpandMin(tree, alpha, beta, depth);
      min' := Min(min, v);
      if Le(min', alpha) {
        return Dec(min'), beta, true;
      }
      beta' := Min(beta, min');
      cutOff := false;
    }

    /**
     * One pass of findMin's child loop up to the new running minimum: the next
     * pending move becomes a child, the expansion is counted, and the child's
     * value is what findMax finds for it.
     */
    method ExpandMin(tree: GameTree, alpha: Score, beta: Score, depth: int) returns (v: Score)
      requires mySide.Some? && tree.Valid() && 0 <= depth < depthLimit && tree.nextStates != []
      requires InGame(Context(tree.game), tree.nextStates)
      modifies this`stopSearching, this`descendants, this`totalExtraFactor, this`bestCapture
      modifies tree`nextStates, tree`children
      ensures tree.Valid() && tree.nextStates == old(tree.nextStates[1..])
      ensures var s := old(tree.nextStates[0]);
              var o := MaxNode(Context(tree.game), s, tree.game[s].successors, alpha, beta, depth + 1,
                               old(Progress()).(count := old(descendants) + 1));
              v == o.value && Progress() == o.st
      decreases depthLimit - depth, 0
    {
      var child := tree.GetNextChild();
      descendants := descendants + 1;
      ghost var kids;
      v, kids := FindMax(child, alpha, beta, depth + 1);
      child.value := v;
    }
  }
}
