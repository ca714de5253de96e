# HungLe chess bot: search, move ordering and evaluation

This project models the decision core of the HungLe chess bot, written in Java. It
covers two classes:

- `MyBot` chooses a move. It runs iterative deepening at depth limits 2, 4 and 5.
  Each pass is an alpha-beta search (`findMax`/`findMin`) capped by a budget of
  expanded positions. Leaves are scored by a static evaluator: material, plus
  position, potential, opening and castling factors halved below a pawn's value,
  plus the best capture on offer. The bot also keeps a repetition table between
  moves, so it can avoid threefold-repetition draws.
- `GameTree` is the search node. A node expands its successor states lazily.
  Between two deepening passes the root's children are reordered: their values are
  merge-sorted in descending order, repetition draws are dropped, and captures are
  put first.

The model is organised in these modules:

- `Scores` — the double values the search compares. A score is a real or one of the
  two infinities, with `Math.max`/`Math.min` and the ±1 pruning sentinels.
- `Chess` — the positions, kept in an arena (`Game`, indexed by id). It also holds
  the fingerprint of a position (the suffix of its text from the last space) and
  the repetition table.
- `Sorting` — `MyMergeSort`, as the class `MergeSorter` over an `array<Score>`. It is
  proved to sort in descending order and to return a permutation of its input.
- `Tree` — `GameTree`, as a class whose fields the methods update. `reorderGameTree`
  is proved against index-level specification functions (`Step`, `Reordered`).
  Those functions in turn are proved to give:
  - a stable descending order of the kept children;
  - the draw policy (`DrawPolicy`): every non-draw is kept, and something is
    kept whenever there were children. A draw is kept only when it is matched
    as the last child in the list while nothing is kept yet. The last child
    stays last while it waits, so only the last child can be a kept draw, and
    then it is kept in first place. That happens exactly when it is a draw and
    every other child ranked at least as high is a draw too
    (`OnlyDrawsAhead`). Sorted stably and under this policy, the kept list
    has no freedom left: it is the one the loop keeps (`PolicyIsReorder`).
    On the reorder alone a draw can lead although non-draws exist
    (`DrawCanLead`). After a search it cannot lead that way, because findMin
    scores a draw -infinity, or +infinity when the move mates
    (`Search.DrawScored`). So a pass keeps a draw when every move it searched
    is a draw, or when the last move it searched is a mating repetition and
    every other mating move is a draw too (`Passes.PassDrawBest`). In the
    source every kept draw then fails on its missing name (see Findings);
    the model names it and goes on;
  - a capture-first permutation of the queue.
- `Scoring` — the evaluator's arithmetic as pure functions, ending in
  `Evaluation`.
- `Search` — `findMax`/`findMin` as pure functions (`MaxNode`, `MaxLoop`, `MinNode`,
  `MinLoop`). These thread the stop flag and the descendant count through the
  calls, and report how many pending moves each call consumed. They are proved
  sound against plain minimax (`MaxValue`, `MinValue`), in the usual fail-soft
  alpha-beta sense. Except for the stop flag, the root call returns the exact
  minimax value.
- `Bot` — `MyBot` as a class. `FindMax`/`FindMin` are proved to compute
  `MaxNode`/`MinNode`, updating the tree nodes and the bot's fields in place.
  `Evaluate` is proved to compute `Evaluation`. `ChooseMove` is proved to run
  passes at the limits 2, 4, 5, each the root search of `MaxNode` followed by the
  reorder, and to return the best child of the last pass the budget did not stop.
  That child is one of the root's moves, and its fingerprint is what gets
  recorded.
- `Passes` — what each deepening pass searched and kept, as a ghost record
  (`Pass`). A pass holds the values findMax gave the root's moves, the indices
  the reorder kept, its best node, and the count and queue it ends with. The
  next pass searches that queue: the kept moves, captures first.

Some methods of the source are split into several Dafny methods, one per loop or
loop body: `ChooseMove` into `StartMove`/`Deepen`/`RunPass`/`SearchPass`, and
`findMax` into `FindMax`/`MaxChildren`/`MaxStep`/`ExpandMax`. `findMin`,
`reorderGameTree`, `evaluate` and `MyMergeSort.mergeParts` are split the same way.
Together they run the statements of the original method in the same order. There
is one exception: `PlaceAt` also names a draw kept as the last resort, which the
source does not do (see Findings). `PlaceAtAsWritten` is the step as written.

## Model

| member | source | states |
|---|---|---|
| Chess.LastIndexOf | StevenLe/src/com/stephengware/java/games/chess/bot/GameTree.java:211 | the result is -1 exactly when the character is absent; otherwise it is an index holding the character with no later occurrence |
| Chess.Fingerprint | StevenLe/src/com/stephengware/java/games/chess/bot/GameTree.java:211 | the state name is non-empty and starts with a space; that it is the suffix from the last space is stated by `Chess.FingerprintIsLastField` |
| Chess.FingerprintIsLastField | StevenLe/src/com/stephengware/java/games/chess/bot/MyBot.java:66 | the name is the text's last space-separated field, with the space in front |
| Chess.Recorded | StevenLe/src/com/stephengware/java/games/chess/bot/MyBot.java:68-75 | recording adds the key, with count 1 if it is new and 2 otherwise; every other count is unchanged |
| Chess.RecordedCounts | StevenLe/src/com/stephengware/java/games/chess/bot/MyBot.java:68-75 | recording keeps every count of the table at 1 or 2 |
| Chess.RecordedTwice | StevenLe/src/com/stephengware/java/games/chess/bot/MyBot.java:146-153 | a key recorded twice is a repetition whatever the table held, and recording it again changes nothing |
| Scores.Max | StevenLe/src/com/stephengware/java/games/chess/bot/MyBot.java:211 | `Math.max` is an upper bound of both arguments and equals one of them |
| Scores.Min | StevenLe/src/com/stephengware/java/games/chess/bot/MyBot.java:297 | `Math.min` is a lower bound of both arguments and equals one of them |
| Scores.Inc | StevenLe/src/com/stephengware/java/games/chess/bot/MyBot.java:221 | `max + 1.0` is strictly above a finite value and leaves an infinity unchanged |
| Scores.Dec | StevenLe/src/com/stephengware/java/games/chess/bot/MyBot.java:306 | `min - 1.0` is strictly below a finite value and leaves an infinity unchanged |
| Sorting.MergeSorter.Sort | StevenLe/src/com/stephengware/java/games/chess/bot/GameTree.java:269-274 | `sort` leaves the array in non-increasing order and a permutation of its input |
| Sorting.MergeSorter.DoMergeSort | StevenLe/src/com/stephengware/java/games/chess/bot/GameTree.java:276-287 | the index range is sorted descending and permuted, and nothing outside it changes |
| Sorting.MergeSorter.MergeParts | StevenLe/src/com/stephengware/java/games/chess/bot/GameTree.java:289-313 | two descending runs merge into one descending run, a permutation of the range; nothing outside it changes |
| Sorting.MergeSorter.CopyToTemp | StevenLe/src/com/stephengware/java/games/chess/bot/GameTree.java:291-293 | the scratch array holds a copy of the range |
| Sorting.MergeSorter.MergeRuns | StevenLe/src/com/stephengware/java/games/chess/bot/GameTree.java:294-306 | the merge loop keeps the merge invariant and ends with one run exhausted |
| Sorting.MergeSorter.MergeLeftRest | StevenLe/src/com/stephengware/java/games/chess/bot/GameTree.java:307-311 | copying the rest of the left run completes a descending permutation of the range; the right run's rest is already in place |
| Sorting.MergeDone | StevenLe/src/com/stephengware/java/games/chess/bot/GameTree.java:294-311 | once the left run is used up, the range is sorted, permuted and framed |
| Sorting.SortedRangeSlice | StevenLe/src/com/stephengware/java/games/chess/bot/GameTree.java:298 | neighbour-wise descending order is descending order |
| Tree.GameTree.constructor | StevenLe/src/com/stephengware/java/games/chess/bot/GameTree.java:58-63 | a new node has every successor pending, no children, no name, and parent as given |
| Tree.GameTree.HasNextChild | StevenLe/src/com/stephengware/java/games/chess/bot/GameTree.java:80-82 | true exactly when some successor is still pending |
| Tree.GameTree.GetNextChild | StevenLe/src/com/stephengware/java/games/chess/bot/GameTree.java:89-98 | the first pending state becomes a new child of this node; only the root records it among its children |
| Tree.GameTree.CheckDrawState | StevenLe/src/com/stephengware/java/games/chess/bot/GameTree.java:206-223 | true exactly when the node's fingerprint was seen twice; only a non-draw gets its fingerprint as its name |
| Tree.GameTree.IndexOfValue | StevenLe/src/com/stephengware/java/games/chess/bot/GameTree.java:137-139 | the index of the first child with the given value, or the list size if there is none |
| Tree.GameTree.ReorderGameTree | StevenLe/src/com/stephengware/java/games/chess/bot/GameTree.java:110-195 | the children list is emptied; the kept children are sorted stably by value and follow the draw policy, which leaves only the list the loop keeps (`Tree.PolicyIsReorder`): every non-draw, and a draw only when it is the last child and only draws rank ahead of it; the best node is the first kept one; every kept child is named; the queue is the kept children's states, captures first (corrected, see Findings) |
| Tree.GameTree.SortAndPlace | StevenLe/src/com/stephengware/java/games/chess/bot/GameTree.java:117-181 | the node list is the kept children, sorted stably, following the draw policy (so exactly the list `Reordered` gives, by `Tree.PolicyIsReorder`) and named; the children list ends empty (corrected, see Findings) |
| Tree.GameTree.QueueKept | StevenLe/src/com/stephengware/java/games/chess/bot/GameTree.java:183-194 | the pending states become the kept nodes' states, captures first, and they are successors of the node |
| Tree.GameTree.SortedValues | StevenLe/src/com/stephengware/java/games/chess/bot/GameTree.java:117-125 | the value array is a descending permutation of the children's values |
| Tree.GameTree.PlaceAll | StevenLe/src/com/stephengware/java/games/chess/bot/GameTree.java:135-181 | the outer loop keeps exactly the children that `Reordered` keeps, in that order, each of them named (corrected, see Findings) |
| Tree.GameTree.PlaceNext | StevenLe/src/com/stephengware/java/games/chess/bot/GameTree.java:137-179 | one outer-loop pass acts as `Step` on the remaining and the kept children (corrected, see Findings) |
| Tree.GameTree.PlaceFound | StevenLe/src/com/stephengware/java/games/chess/bot/GameTree.java:146-177 | the matched child leaves the children and is kept exactly as `KeepRule` says (corrected, see Findings) |
| Tree.GameTree.PlaceAt | StevenLe/src/com/stephengware/java/games/chess/bot/GameTree.java:146-177 | keeps a non-draw, or a draw when it is the last child left and nothing is kept yet, and names every kept node (corrected, see Findings) |
| Tree.GameTree.PlaceAtAsWritten | StevenLe/src/com/stephengware/java/games/chess/bot/GameTree.java:146-177 | the same rule as written: a draw kept as the last resort keeps whatever name it had |
| Tree.FallbackDrawUnnamed | StevenLe/src/com/stephengware/java/games/chess/bot/GameTree.java:162-168 | as written, a root whose only move repeats a position seen twice keeps that child with no name, so `putCaptureMoveOntop` would read a missing name |
| Tree.DrawCanLead | StevenLe/src/com/stephengware/java/games/chess/bot/GameTree.java:137-168 | on the reorder alone, a non-draw worth 3 listed before a draw worth 5 gives the kept order draw first, then the non-draw (a search never gives a draw the value 5) |
| Tree.GameTree.PutCaptureMoveOntop | StevenLe/src/com/stephengware/java/games/chess/bot/GameTree.java:233-256 | the states of the listed nodes, those whose name holds an "x" first, each group in list order |
| Tree.Captures | StevenLe/src/com/stephengware/java/games/chess/bot/GameTree.java:239-244 | every element of the capture list is a capture |
| Tree.Quiet | StevenLe/src/com/stephengware/java/games/chess/bot/GameTree.java:245-248 | no element of the other list is a capture |
| Tree.CaptureFirstPermutes | StevenLe/src/com/stephengware/java/games/chess/bot/GameTree.java:253 | the capture-first list is a permutation of its input |
| Tree.CaptureFirstOrder | StevenLe/src/com/stephengware/java/games/chess/bot/GameTree.java:253 | no capture comes after a non-capture |
| Tree.CaptureFirstStable | StevenLe/src/com/stephengware/java/games/chess/bot/GameTree.java:251-253 | captures keep their relative order, and so do the other moves |
| Tree.FirstMatch | StevenLe/src/com/stephengware/java/games/chess/bot/GameTree.java:137-139 | the first remaining child whose value equals the sorted value, or the count of remaining children if there is none |
| Tree.ReorderStart | StevenLe/src/com/stephengware/java/games/chess/bot/GameTree.java:119-135 | before the outer loop, the reorder invariant holds with every child remaining and none kept |
| Tree.ReorderStep | StevenLe/src/com/stephengware/java/games/chess/bot/GameTree.java:137-178 | one outer-loop pass keeps the reorder invariant |
| Tree.StepDraws | StevenLe/src/com/stephengware/java/games/chess/bot/GameTree.java:146-177 | one pass keeps the draw rule: a kept draw is the last child, the last child waits while nothing is kept, and once placed it leads when only draws rank ahead of it |
| Tree.ReorderDone | StevenLe/src/com/stephengware/java/games/chess/bot/GameTree.java:181 | after every sorted value, no child remains and the kept ones are sorted stably and follow the draw policy |
| Tree.ReorderedSound | StevenLe/src/com/stephengware/java/games/chess/bot/GameTree.java:135-181 | from a sorted permutation of the values, the loop places every child, sorted stably and following the draw policy |
| Tree.PolicyIsReorder | StevenLe/src/com/stephengware/java/games/chess/bot/GameTree.java:135-181 | any kept list that is sorted stably and follows the draw policy is exactly the list the loop keeps from a sorted permutation of the values |
| Tree.KeptInBoth | StevenLe/src/com/stephengware/java/games/chess/bot/GameTree.java:146-168 | a child kept in one list that follows the policy is kept in every other such list |
| Tree.SameSortedEqual | StevenLe/src/com/stephengware/java/games/chess/bot/GameTree.java:135-181 | two stably sorted lists of distinct children holding the same children are equal |
| Tree.KeptFirstLeads | StevenLe/src/com/stephengware/java/games/chess/bot/GameTree.java:137-181 | the first kept child has the highest value of all non-draws, and comes earliest among equal values |
| Tree.KeptDrawLeads | StevenLe/src/com/stephengware/java/games/chess/bot/GameTree.java:162-168 | a kept draw is kept first, is the last child, and only draws rank ahead of it |
| Tree.AllDrawsKeepOne | StevenLe/src/com/stephengware/java/games/chess/bot/GameTree.java:162-168 | when every child is a draw, exactly one child is kept: the last one |
| Tree.KeptStatesAreSuccessors | StevenLe/src/com/stephengware/java/games/chess/bot/GameTree.java:185-191 | the states queued again are successor states of the root |
| Scoring.Material | StevenLe/src/com/stephengware/java/games/chess/bot/MyBot.java:402-428 | material values lie between a pawn's 10 and a king's 100 |
| Scoring.TurnMultiplier | StevenLe/src/com/stephengware/java/games/chess/bot/MyBot.java:538 | the factor is 1 up to turn 40 and turn/20 (above 2) after it |
| Scoring.KingRankFactor | StevenLe/src/com/stephengware/java/games/chess/bot/MyBot.java:506-539 | before turn 35 the king gets both the king's penalty and the other pieces' middle-rank bonus |
| Scoring.FileFactor | StevenLe/src/com/stephengware/java/games/chess/bot/MyBot.java:548-563 | -2 exactly for a knight or bishop on an edge file, otherwise 0 |
| Scoring.PositionFactor | StevenLe/src/com/stephengware/java/games/chess/bot/MyBot.java:487-495 | 0 for opponent pieces; rank factor minus 2 for the bot's cornered knights and bishops |
| Scoring.OpeningFactor | StevenLe/src/com/stephengware/java/games/chess/bot/MyBot.java:575-594 | 0 for a moved or opponent piece; otherwise minus a tenth of its value capped at 5, divided by 3 |
| Scoring.CastlingFactor | StevenLe/src/com/stephengware/java/games/chess/bot/MyBot.java:1041-1052 | 5 exactly when the bot's king moved two files since the previous position, otherwise 0 |
| Scoring.PotentialFactor | StevenLe/src/com/stephengware/java/games/chess/bot/MyBot.java:607-1001 | 0 for a piece whose side is not to move; otherwise a third of the counted squares, and a sixth for a queen, whose count is halved first |
| Scoring.CaptureValue | StevenLe/src/com/stephengware/java/games/chess/bot/MyBot.java:1020-1028 | a capture value lies between 0 and 100; that it is the running maximum of findBestCapture is stated by `Scoring.Probed` and `Scoring.BestCaptureIsMaximum` |
| Scoring.Probed | StevenLe/src/com/stephengware/java/games/chess/bot/MyBot.java:1031 | the running maximum bounds the start value and every probe's capture, and equals one of them |
| Scoring.BestCapture | StevenLe/src/com/stephengware/java/games/chess/bot/MyBot.java:337-356 | the best capture lies between 0 and 100 |
| Scoring.BestCaptureIsMaximum | StevenLe/src/com/stephengware/java/games/chess/bot/MyBot.java:1015-1032 | the capture term is the largest capture on offer to the side to move, or 0 |
| Scoring.SumsStep | StevenLe/src/com/stephengware/java/games/chess/bot/MyBot.java:343-356 | one more piece extends the material sum, the extra-factor sum and the best capture by that piece's share |
| Scoring.RawCapture | StevenLe/src/com/stephengware/java/games/chess/bot/MyBot.java:372-374 | the unsigned capture term lies between 0 and 100 |
| Scoring.Clamp | StevenLe/src/com/stephengware/java/games/chess/bot/MyBot.java:369-370 | halving ends below 10 in magnitude, keeps the sign, and leaves a smaller value alone |
| Scoring.EvaluationNearMaterial | StevenLe/src/com/stephengware/java/games/chess/bot/MyBot.java:323-379 | the evaluation is within 110 of the material balance, and equals it without extra factors |
| Bot.MyBot.Evaluate | StevenLe/src/com/stephengware/java/games/chess/bot/MyBot.java:323-379 | `evaluate` returns `Evaluation`; the extra-factor field ends clamped and the capture field ends signed |
| Bot.MyBot.SumPieces | StevenLe/src/com/stephengware/java/games/chess/bot/MyBot.java:339-356 | the piece loop yields the material balance, the sum of extra factors and the best capture |
| Bot.MyBot.AddPiece | StevenLe/src/com/stephengware/java/games/chess/bot/MyBot.java:345-355 | one piece's share is added to each running sum |
| Bot.MyBot.HalveExtraFactor | StevenLe/src/com/stephengware/java/games/chess/bot/MyBot.java:369-370 | the halving loop leaves `Clamp` of the extra-factor total |
| Bot.MyBot.GetPieceValue | StevenLe/src/com/stephengware/java/games/chess/bot/MyBot.java:392-464 | returns the material value; adds the piece's extra factors and probes for captures only with extra factors on |
| Bot.MyBot.GetPotentialFactor | StevenLe/src/com/stephengware/java/games/chess/bot/MyBot.java:607-1001 | returns `PotentialFactor`, halving a queen's count before the division by 3; the best capture becomes the running maximum over the piece's probes |
| Bot.MyBot.FindBestCapture | StevenLe/src/com/stephengware/java/games/chess/bot/MyBot.java:1015-1032 | the best capture rises to the probe's capture value if that is larger, and is otherwise unchanged |
| Bot.MyBot.constructor | StevenLe/src/com/stephengware/java/games/chess/bot/MyBot.java:32-41 | a new bot has an empty table, no side, and the king-capture flag cleared |
| Bot.MyBot.Record | StevenLe/src/com/stephengware/java/games/chess/bot/MyBot.java:68-75 | the table after recording a name is `Recorded` of the old table |
| Bot.TableAtStart | StevenLe/src/com/stephengware/java/games/chess/bot/MyBot.java:53-61 | the table is cleared when the side changes after a first move, otherwise kept |
| Bot.SearchTable | StevenLe/src/com/stephengware/java/games/chess/bot/MyBot.java:53-76 | the searched table holds the opponent's position; after a side change it holds only that position |
| Bot.MyBot.StartMove | StevenLe/src/com/stephengware/java/games/chess/bot/MyBot.java:53-86 | reset on a new game, record the current position, start at depth 2 with the budget cleared |
| Bot.MyBot.ChooseMove | StevenLe/src/com/stephengware/java/games/chess/bot/MyBot.java:50-158 | passes at limits 2, 4, 5, each the root `MaxNode` search, until one is stopped; each pass keeps its searched moves as reorderGameTree orders and filters them, and the next pass searches those moves, captures first; the move is the best child of the last unstopped pass (the root itself when the first pass is stopped), and its fingerprint is recorded (corrected, see Findings) |
| Bot.MyBot.Deepen | StevenLe/src/com/stephengware/java/games/chess/bot/MyBot.java:92-142 | the deepening loop yields chained passes, ending with a stopped pass or depth 5, and the best child of the last unstopped pass: a move of the root, named by its fingerprint (corrected, see Findings) |
| Passes.ChainedGrows | StevenLe/src/com/stephengware/java/games/chess/bot/MyBot.java:97-142 | a pass that starts with the count and the queue the last unstopped pass left extends the chain of passes |
| Passes.PassBest | StevenLe/src/com/stephengware/java/games/chess/bot/MyBot.java:103-114 | the best node of a pass has the highest value among the non-draw moves searched, comes earliest among equal values, and carries the root value when no searched move is a draw |
| Passes.PassDrawBest | StevenLe/src/com/stephengware/java/games/chess/bot/MyBot.java:103-114 | the best node of a pass is a repetition draw only when it is the last move searched and either every move searched is a draw, or it mates and every other move searched worth +infinity is a draw |
| Passes.SettledIsMove | StevenLe/src/com/stephengware/java/games/chess/bot/MyBot.java:119-129 | the node chooseMove settles on is one of the root's moves, keyed by its position's fingerprint |
| Bot.MyBot.RunPass | StevenLe/src/com/stephengware/java/games/chess/bot/MyBot.java:103-114 | one pass is the root `MaxNode` search on the root's queue with the count carried over, then the reorder; it extends the chain, and the root's count and queue become those the pass leaves (corrected, see Findings) |
| Bot.MyBot.SearchPass | StevenLe/src/com/stephengware/java/games/chess/bot/MyBot.java:103-114 | findMax from the root with an open window, then the reorder. The pass's value, stop flag and count are `MaxNode`'s. Its values are `MaxNodeValues`. The kept moves are sorted stably and follow the draw policy, which leaves only the list the reorder keeps. The best node is the first kept move, keyed by its fingerprint. The new queue is the kept moves, captures first (corrected, see Findings) |
| Bot.MyBot.ReorderRoot | StevenLe/src/com/stephengware/java/games/chess/bot/MyBot.java:114 | reorderGameTree on the root: the kept moves are sorted stably by their searched values and follow the draw policy of the table, which leaves only the list the reorder keeps; the best node is the first kept move, named by its fingerprint; the new queue is the kept moves, captures first (corrected, see Findings) |
| Bot.ChildrenStand | StevenLe/src/com/stephengware/java/games/chess/bot/MyBot.java:103-114 | the children a root search left stand for the moves it searched, in order, with their values |
| Bot.MyBot.FindMax | StevenLe/src/com/stephengware/java/games/chess/bot/MyBot.java:170-228 | `findMax` returns `MaxNode`'s value, leaves its stop flag and count, and consumes its moves; the new nodes stand for the consumed moves, in order, and hold the values `MaxNodeValues` gives them; the root appends them to its children |
| Bot.MyBot.MaxChildren | StevenLe/src/com/stephengware/java/games/chess/bot/MyBot.java:197-227 | the child loop of findMax computes `MaxLoop`; its new nodes stand for the consumed moves and hold the values `MaxLoopValues` gives them; the root appends them to its children |
| Bot.MyBot.MaxRound | StevenLe/src/com/stephengware/java/games/chess/bot/MyBot.java:197-227 | one loop pass moves the loop on by one move, or at a cut-off completes `MaxLoop`'s outcome and values; the new node holds its move's value and the root appends it |
| Bot.MaxLoopAdvances | StevenLe/src/com/stephengware/java/games/chess/bot/MyBot.java:200-225 | a findMax step either completes the loop's outcome and values at a cut-off or leaves the rest of the loop to complete them |
| Bot.MaxLoopStarts | StevenLe/src/com/stephengware/java/games/chess/bot/MyBot.java:197-199 | before its first step the loop stands at the whole queue, with no value stored yet |
| Bot.MyBot.MaxStep | StevenLe/src/com/stephengware/java/games/chess/bot/MyBot.java:200-225 | one child: either the cutoff outcome with `max + 1`, or the rest of the loop with the raised alpha; the child's value heads `MaxLoopValues`, and the new node for the move holds it and is appended at the root |
| Bot.MyBot.ExpandMax | StevenLe/src/com/stephengware/java/games/chess/bot/MyBot.java:203-206 | the next move becomes a new node, is counted, and is searched by `MinNode`; the node holds that value and the root appends it |
| Bot.MyBot.FindMin | StevenLe/src/com/stephengware/java/games/chess/bot/MyBot.java:242-312 | `findMin` returns `MinNode`'s value, including the game-over and repetition scores at depth 1; at depth 1, unstopped, within budget and not over, a non-draw node gets its fingerprint as its name, and otherwise the name is unchanged |
| Bot.MyBot.MinChildren | StevenLe/src/com/stephengware/java/games/chess/bot/MyBot.java:289-311 | the child loop of findMin computes `MinLoop` |
| Bot.MyBot.MinStep | StevenLe/src/com/stephengware/java/games/chess/bot/MyBot.java:290-309 | one child: either the cutoff outcome with `min - 1`, or the rest of the loop with the lowered beta |
| Bot.MyBot.ExpandMin | StevenLe/src/com/stephengware/java/games/chess/bot/MyBot.java:291-294 | the child is expanded, counted, and searched by `MaxNode` |
| Search.MaxNode | StevenLe/src/com/stephengware/java/games/chess/bot/MyBot.java:170-228 | findMax consumes no more moves than are pending |
| Search.MaxLoop | StevenLe/src/com/stephengware/java/games/chess/bot/MyBot.java:197-227 | the child loop consumes no more moves than are pending |
| Search.MinNode | StevenLe/src/com/stephengware/java/games/chess/bot/MyBot.java:242-312 | findMin consumes no more moves than are pending |
| Search.MinLoop | StevenLe/src/com/stephengware/java/games/chess/bot/MyBot.java:289-311 | the child loop consumes no more moves than are pending |
| Search.MaxLoopValues | StevenLe/src/com/stephengware/java/games/chess/bot/MyBot.java:200-210 | the loop stores one value per move it consumes |
| Search.MaxNodeValues | StevenLe/src/com/stephengware/java/games/chess/bot/MyBot.java:170-228 | findMax stores one value per move it consumes |
| Search.Highest | StevenLe/src/com/stephengware/java/games/chess/bot/MyBot.java:211 | the highest score bounds the start and every value, and equals one of them |
| Search.OpenLoopValue | StevenLe/src/com/stephengware/java/games/chess/bot/MyBot.java:197-227 | with beta at +infinity the loop returns the highest of its start and the values it stores |
| Search.RootValueIsHighest | StevenLe/src/com/stephengware/java/games/chess/bot/MyBot.java:103 | the root search returns the highest value it stores in the root's children, or -infinity when it expands none |
| Search.DrawChildScore | StevenLe/src/com/stephengware/java/games/chess/bot/MyBot.java:246-276 | at depth 1, findMin scores a repetition draw -infinity, or +infinity when the move mates |
| Search.RootLoopDraws | StevenLe/src/com/stephengware/java/games/chess/bot/MyBot.java:197-227 | findMax's loop at the root stores -infinity, or +infinity for a mating move, for every repetition draw it expands |
| Search.RootSearchDraws | StevenLe/src/com/stephengware/java/games/chess/bot/MyBot.java:103 | the root search stores -infinity, or +infinity for a mating move, for every repetition draw among the moves it expands |
| Search.MaxNodeState | StevenLe/src/com/stephengware/java/games/chess/bot/MyBot.java:173-185 | the stop flag stays set once set, the count never falls, and an unstopped search stayed within the budget |
| Search.MaxLoopState | StevenLe/src/com/stephengware/java/games/chess/bot/MyBot.java:199-226 | the same for findMax's child loop |
| Search.MinNodeState | StevenLe/src/com/stephengware/java/games/chess/bot/MyBot.java:246-258 | the same for findMin |
| Search.MinLoopState | StevenLe/src/com/stephengware/java/games/chess/bot/MyBot.java:290-310 | the same for findMin's child loop |
| Search.MaxLoopPrune | StevenLe/src/com/stephengware/java/games/chess/bot/MyBot.java:219-222 | a loop below beta consumes every move; a finite cutoff value lies strictly above beta |
| Search.MinLoopPrune | StevenLe/src/com/stephengware/java/games/chess/bot/MyBot.java:304-307 | a loop above alpha consumes every move; a finite cutoff value lies strictly below alpha |
| Search.MaxPruneStep | StevenLe/src/com/stephengware/java/games/chess/bot/MyBot.java:219-222 | a findMax cutoff is sound: the true value is at least beta too |
| Search.MaxContinueStep | StevenLe/src/com/stephengware/java/games/chess/bot/MyBot.java:211-225 | raising alpha to the running maximum keeps the window sound |
| Search.MinPruneStep | StevenLe/src/com/stephengware/java/games/chess/bot/MyBot.java:304-307 | a findMin cutoff is sound: the true value is at most alpha too |
| Search.MinContinueStep | StevenLe/src/com/stephengware/java/games/chess/bot/MyBot.java:297-309 | lowering beta to the running minimum keeps the window sound |
| Search.MaxNodeSound | StevenLe/src/com/stephengware/java/games/chess/bot/MyBot.java:170-228 | unless stopped, findMax's value is the minimax value inside the window and on the right side of it outside |
| Search.MaxLoopSound | StevenLe/src/com/stephengware/java/games/chess/bot/MyBot.java:197-227 | the same for findMax's child loop, against the running maximum over all children |
| Search.MinNodeSound | StevenLe/src/com/stephengware/java/games/chess/bot/MyBot.java:242-312 | the same for findMin, against minimax with the depth-1 game-over and draw scores |
| Search.MinLoopSound | StevenLe/src/com/stephengware/java/games/chess/bot/MyBot.java:289-311 | the same for findMin's child loop |
| Search.RootSearchIsMinimax | StevenLe/src/com/stephengware/java/games/chess/bot/MyBot.java:103 | the root call with an open window returns the exact minimax value unless stopped |
| Search.MaxNodeExpands | StevenLe/src/com/stephengware/java/games/chess/bot/MyBot.java:197-203 | an unstopped root search with pending moves consumes at least one of them |

## Left out

- The rules engine (`State`, `Board`, `Piece`, `next()`, `toString()`, `over`,
  `check`, `previous`, `board.hasMoved`, `board.getKing`) is not part of this model.
  A position is a record of what the bot reads from it, and its successors are ids
  into an arena.
- The board walk of `getPotentialFactor` (MyBot.java:616-998) is abstracted. Each
  piece carries the number of empty squares the walk counts (`mobility`, before
  the queen's halving at MyBot.java:826, which the model applies) and the squares
  it hands to `findBestCapture`, in order (`probes`). The walk itself is not
  modelled.
- `countDescendants()` of the root state belongs to the rules engine. It is
  modelled as a counter raised by one per expanded node and reset to 0 at the start
  of each move. How the engine counts positions it has already generated is not
  captured.
- Doubles are exact reals with the two infinities. Rounding and NaN are not
  modelled.
- The test `state.toString() != ""` (MyBot.java:64) compares references and always
  holds, so the recording is modelled unconditionally.
- The field `rootState` is used only for `countDescendants()` and is not a field of
  the model. The overload `getPieceValue(piece)` is folded into `CaptureValue`.
- The bot's name and the `Bot` superclass (MyBot.java:32-34) are not modelled.
- Bot.MyBot.FindMin: unlike `FindMax`, its contract says nothing about the root's
  children list, because `findMin` never runs at the root.
- Bot.MyBot.ChooseMove: the contract does not state the final values of the
  evaluator's scratch fields (`totalExtraFactor`, `bestCapture`) or of
  `depthLimit`.
- Tree.GameTree.ReorderGameTree and Bot.MyBot.ChooseMove: both use the corrected
  `PlaceAt`, which names a draw kept as the last resort. In the source no draw
  child is ever named, so whenever the reorder keeps a draw the source throws a
  `NullPointerException` at GameTree.java:241. After a search that happens when
  every searched move is a draw, the only move being the simplest case, and when
  the last searched move is a mating repetition and every other mating move is a
  draw too (`Passes.PassDrawBest`). On all those inputs the model goes on and may
  return the draw move. The step as
  written is `Tree.GameTree.PlaceAtAsWritten`, and `Tree.FallbackDrawUnnamed`
  shows the missing name.
- Bot.MyBot.ChooseMove: requires a root with at least one move. With none, the
  first pass searches nothing, the reorder returns no node, `chosenNode` becomes
  null, and the source fails at MyBot.java:146. That failure is not modelled.
- Search.MaxNode: the function's own contract bounds only the moves it consumes.
  What its value means is stated by `Search.MaxNodeSound` and
  `Search.RootSearchIsMinimax`; the same holds for `MaxLoop`, `MinNode` and
  `MinLoop`.

## Findings

| source | as written | input that shows it | evidently intended | confidence | as-written member | corrected member |
|---|---|---|---|---|---|---|
| StevenLe/src/com/stephengware/java/games/chess/bot/GameTree.java:162-168 | a draw kept as the last resort is never named, because `checkDrawState` returns before storing the name; `putCaptureMoveOntop` then calls `contains` on a null `stateName` | any root where the reorder keeps a draw, since neither `checkDrawState` nor `findMin` ever names a draw and root children are new nodes each pass: a root whose only legal move leads to a position already seen twice (`Tree.FallbackDrawUnnamed`), or a root whose last searched move mates by a repetition while every other mating move is a draw (`Passes.PassDrawBest`); the kept draw reaches line 241 unnamed | the fallback node gets its fingerprint as its name like every other kept node | not executed | Tree.GameTree.PlaceAtAsWritten | Tree.GameTree.PlaceAt |
