# Othello engine: rules, evaluators and alpha-beta search

This project models the game engine of an Othello (Reversi) program that
exists in four parallel copies:

- the web backend's game object and AI (`backend/game_logic.py`);
- the enhanced desktop game (`EnhancedOthello.py`);
- the first desktop game (`Othello.py`);
- the browser web worker (`othello-ai/src/aiworker.js`).

All four copies share the same rules, written out almost word for word in
each. Those rules are modelled once:

- **Board** holds the value-level rules. The 8x8 board is a flat sequence
  of 64 cells, with (r, c) at index 8r + c. Black is 1, white is -1 and
  empty is 0.
  - A move's flips are the bracketed opponent runs in the eight directions,
    in the source's direction order.
  - The legal-move dictionary is an ordered list of (cell, flips) entries in
    row-major order. That is the insertion order of the Python dicts and of
    the JS object.
  - Piece counts, the start position, the winner rule and the turn
    hand-over are defined here too.
- **Rules** holds the loops the source runs over a board array. These are
  the direction scan, the flip collection, move generation, piece counting,
  painting flips, board copy and the "stable piece" scan. Each loop is
  proved equal to its Board function.
- **BoardLemmas** proves what the rules promise:
  - a cell is a key of the move dictionary iff it is empty and flips
    something;
  - flips are opponent pieces on the ray, with no duplicates;
  - the keys are ordered;
  - a run of opponent pieces closed by the mover's piece is exactly what a
    direction flips, so such a cell is a legal move;
  - a move adds exactly one piece and recolours exactly its flips.
- **Opening** works out black's moves in the start position: exactly
  (2,3), (3,2), (4,5) and (5,4), in that order.
- **Evaluation** models two evaluators:
  - the phase-weighted evaluator of the backend, enhanced game and worker:
    pieces, mobility, corners, a penalty for own pieces next to empty
    corners, and "stable" pieces;
  - the fixed-weight evaluator of `Othello.py`.
- **Search** and **SearchLoop** hold what every alpha-beta loop shares:
  - the infinite window bounds (`ExtInt`);
  - the fail-soft guarantee;
  - the loop invariants of a max and a min node;
  - the insertion sort that orders the decision log.

Each copy then has its own module:

- **GameLogic** (backend) and **Enhanced** (enhanced desktop game):
  - a class `Othello` with the board as an array, the side to move and the
    stored move dictionary;
  - the game-over flag and winner, and for Enhanced the move history and
    last move;
  - the search works over copies of the game object.
  - Both are proved against the value-level game tree of **GameTree**.
- **Classic** (`Othello.py`):
  - no game-over flag: the game is over when the stored move list is empty;
  - the search recomputes the moves at every node, and a pass only flips
    the side to move.
- **Worker** (`aiworker.js`):
  - the search works on bare board arrays and always generates the AI's
    own moves;
  - a min node paints the AI's move cells and flips in the opponent's
    colour.

For every search method, the contract has four parts:

- the returned score obeys the fail-soft alpha-beta guarantee for the
  unpruned minimax value of that copy's tree, so with the full window it
  equals that value;
- for any window, the log is a reordering of one (evaluation, move) pair
  per explored move, sorted best first for the node's role;
- each logged evaluation obeys the fail-soft guarantee for its child's true
  value under the window that child was searched with: alpha raised (at a
  max node) or beta lowered (at a min node) by the evaluations before it;
- the best move is the first explored move whose evaluation equals the
  score;
- with the full window, every move is explored and the best move is the
  first child that reaches the best value;
- leaves return no move and an empty log.

Facts about the source that the proofs make explicit:

- The "stable piece" test of `count_stable_pieces` never fails. Every walk
  ends on a cell that is not the player's, or off the board, and both count
  as secure. The stable count is therefore the piece count (`StableIsCount`),
  and the stability term is a second piece-difference term
  (`WeightedScoreClosedForm`).
- The mobility guard in the phase-weighted evaluator never changes the
  result (`MobilityGuardIrrelevant`).
- The phase-weighted score is not zero-sum. Only the scored side's own
  pieces next to empty corners are penalized (`DynamicScoreSum`). The
  fixed-weight score is zero-sum (`EvaluateAntisymmetric`).
- In the backend and enhanced games, the search's pass branch is dead from
  every reachable state. After the constructor or a move, either the game is
  over or the mover has a move (`SettledNeverPasses`). The same holds for
  `Othello.py` (`CurrentNeverPasses`).
- In the worker, when the AI has no move, the result is the board's
  evaluation at any depth, whether or not the opponent could move
  (`NoMovesValue`). A min-node child differs from its parent only in the
  target cell, because the painted "flips" already hold the opponent's
  colour (`MinChildOnlyPlaces`).

## Model

| member | source | states |
|---|---|---|
| Rules.ScanDirection | backend/game_logic.py:52-60 | The walk in one direction closes exactly when a run of opponent pieces is bracketed by the mover's piece, and then yields exactly the flips of that direction. |
| Rules.PiecesToFlip | backend/game_logic.py:49-61 | The collected flips are those of the eight directions, in direction order. |
| Rules.GetValidMoves | backend/game_logic.py:39-47 | The dictionary built by the double loop is the ordered legal-move dictionary of the player. |
| Rules.RowMoves | backend/game_logic.py:42-46 | Scanning one row extends the moves found above it by exactly the legal moves of that row, in column order. |
| Rules.CellMove | backend/game_logic.py:43-46 | Appends to the moves of the cells before (r, c) the cell's entry, present exactly when the cell is empty and its flip list is non-empty, giving the moves of the cells up to and including it; the board is left as it was. |
| Rules.CountPieces | backend/game_logic.py:83-86 | The row-by-row count equals the number of cells holding the colour. |
| Rules.GetScore | backend/game_logic.py:83-86 | Returns the black and white piece counts, which together never exceed 64. |
| Rules.NewInitialBoard | backend/game_logic.py:19-21 | A fresh board with white on (3,3) and (4,4), black on (3,4) and (4,3), and every other cell empty. |
| Rules.CopyBoard | backend/game_logic.py:31 | The deep copy is a fresh array with the same contents. |
| Rules.PaintFlips | backend/game_logic.py:68-69 | Painting the stored flips one by one gives the board with every listed cell recoloured. |
| Rules.WalkSecure | backend/game_logic.py:149-157 | One side of an axis is secure exactly when the walk meets a cell that is not the player's or leaves the board. |
| Rules.CheckAxis | backend/game_logic.py:148-171 | An axis passes exactly when both of its sides are secure. |
| Rules.IsStable | backend/game_logic.py:147-171 | The piece is counted as stable exactly when both sides of all four axes are secure. |
| Rules.CountStablePieces | backend/game_logic.py:142-174 | Returns the number of the player's pieces that pass the stability test, and that is always the player's piece count. |
| Rules.SideAlwaysSecure | backend/game_logic.py:149-157 | Every walk along a side is secure, whatever the board. |
| Rules.AlwaysStable | backend/game_logic.py:148-171 | Every cell passes the four-axis stability test. |
| Rules.StableIsCount | backend/game_logic.py:142-174 | The stable count over any prefix of the board equals the piece count over that prefix. |
| Board.Keys | backend/game_logic.py:39-47 | The keys of the move dictionary, one per entry, in order. |
| Board.Lookup | backend/game_logic.py:64-65 | The lookup finds a value exactly when the cell is a key. |
| Board.LookupEntry | backend/game_logic.py:64-65 | Looking up an entry's own cell returns that entry's flips. |
| BoardLemmas.DirFlipsFacts | backend/game_logic.py:52-60 | The flips of one direction are distinct, on the board, on the ray from the move, and hold opponent pieces. |
| BoardLemmas.DirFlipsBracketed | backend/game_logic.py:52-60 | The flipped run starts next to the move, advances one step at a time, holds only opponent pieces, and ends just before a piece of the mover. |
| BoardLemmas.DirFlipsComplete | backend/game_logic.py:52-60 | Conversely, any such run (starting next to the move, one step at a time, all opponent pieces, closed by a piece of the mover) is exactly what the direction flips. |
| BoardLemmas.FlipsUpToIncludes | backend/game_logic.py:49-61 | Every flip found in one direction is among the move's collected flips. |
| BoardLemmas.BracketedMoveIsLegal | backend/game_logic.py:39-61 | An empty cell with a closed opponent run in some direction is a key of the move dictionary, and its stored flips contain that run. |
| BoardLemmas.FlipsFacts | backend/game_logic.py:49-61 | All flips of a move are distinct on-board opponent pieces, never the move's own cell. |
| BoardLemmas.NoOpponentNeighbourNoFlips | backend/game_logic.py:52-60 | A cell with no opponent neighbour flips nothing. |
| BoardLemmas.ValidMovesOrdered | backend/game_logic.py:39-47 | Every entry is a legal move stored with its flips, and the keys are distinct and in row-major order. |
| BoardLemmas.ValidMoveIff | backend/game_logic.py:39-47 | A cell is a key exactly when it is on the board, empty and flips something; its value is then its flips. |
| BoardLemmas.ValidMovesLookup | backend/game_logic.py:64-67 | The flips stored for a key are that cell's flips. |
| BoardLemmas.CountTotal | backend/game_logic.py:83-86 | Black, white and empty counts add up to 64. |
| BoardLemmas.PaintCounts | backend/game_logic.py:65-68 | Painting distinct opponent cells moves each of them from the opponent's count to the mover's. |
| BoardLemmas.MoveEffect | backend/game_logic.py:63-71 | A legal move adds one piece of the mover's colour plus the flips, and removes the flips from the opponent. One more cell is occupied. |
| BoardLemmas.InitialCounts | backend/game_logic.py:18-21 | The start position has two black and two white pieces. |
| Evaluation.ChainWeightsAgree | othello-ai/src/aiworker.js:49-52 | The worker's ternary chains give the same phase weights as the Python if/elif table. |
| Evaluation.CornerPenaltyClosedForm | backend/game_logic.py:127-135 | The corner penalty is minus 15 for each of the player's pieces found by the probes around each empty corner. The probes are counted with the source's offsets, which visit some cells twice. |
| Evaluation.CornerPenaltyBounds | backend/game_logic.py:127-135 | The corner penalty lies between -225 and 0. |
| Evaluation.CornerPenaltyOwnPieces | backend/game_logic.py:127-135 | The penalty depends only on which cells hold the player's pieces and which corners are empty. |
| Evaluation.MobilityGuardIrrelevant | backend/game_logic.py:115-116 | The guarded mobility term always equals the weight times the move-count difference. |
| Evaluation.WeightedScoreClosedForm | backend/game_logic.py:97-140 | The phase-weighted score is (piece + stability weight) times the piece difference, plus mobility, corner and penalty terms. |
| Evaluation.CountCorners | backend/game_logic.py:118-125 | Counts the corners held by each side. |
| Evaluation.PenalizeCorners | backend/game_logic.py:127-135 | Adds exactly the corner penalty to the score. |
| Evaluation.ProbeOffset | backend/game_logic.py:129-135 | One offset pair subtracts 15 for each of its three probed cells that holds the player's piece. |
| Evaluation.ScoreWithWeights | backend/game_logic.py:105-140 | The computed score is the weighted score of the board under the given weights. |
| Evaluation.DynamicEvaluateBoard | backend/game_logic.py:97-140 | Returns the phase-weighted score. The weights are those of the phase table: 1/15/100/80 under 20 pieces, 5/10/100/100 under 52, else 20/5/120/120. |
| Evaluation.EvaluateAntisymmetric | Othello.py:221-244 | The fixed-weight evaluation of one side is the negation of the other side's. |
| Evaluation.DynamicScoreSum | backend/game_logic.py:97-140 | The two sides' phase-weighted scores sum to their two corner penalties, so the score is not zero-sum. |
| Search.FullWindowExact | backend/game_logic.py:176-218 | With the full window, the fail-soft result is the minimax value. |
| Search.MaxStep | backend/game_logic.py:194-201 | One max-loop iteration keeps the running maximum and its first holder, and raises alpha; a cut-off result is a lower bound. |
| Search.MaxEnd | backend/game_logic.py:189-203 | After a max loop without cut-off, the result obeys the fail-soft guarantee. With the full window, the best move is the first child of maximal value. |
| Search.MinStep | backend/game_logic.py:209-216 | One min-loop iteration keeps the running minimum and its first holder, and lowers beta; a cut-off result is an upper bound. |
| Search.MinEnd | backend/game_logic.py:204-218 | The same as MaxEnd for the min loop. |
| Search.MaxEvaluationAt | backend/game_logic.py:192-199 | The evaluation logged for child j of a max node obeys the fail-soft guarantee for that child's value, under the node's alpha raised by every evaluation before it and the node's beta. |
| Search.MaxEvaluationsUpper | backend/game_logic.py:192-199 | With no upper bound on the window, every evaluation a max node logs is at least its child's true value. |
| Search.MinEvaluationAt | backend/game_logic.py:207-214 | The evaluation logged for child j of a min node obeys the fail-soft guarantee for that child's value, under the node's alpha and its beta lowered by every evaluation before it. |
| Search.MinEvaluationsLower | backend/game_logic.py:207-214 | With no lower bound on the window, every evaluation a min node logs is at most its child's true value. |
| Search.SortDescFacts | backend/game_logic.py:202 | The max-node log is sorted by descending score and is a permutation of the evaluated pairs. |
| Search.SortAscFacts | backend/game_logic.py:217 | The min-node log is sorted by ascending score and is a permutation of the evaluated pairs. |
| Search.SortDescHead | backend/game_logic.py:202-203 | The head of the sorted max log carries the largest score. |
| Search.SortAscHead | backend/game_logic.py:217-218 | The head of the sorted min log carries the smallest score. |
| SearchLoop.DescLog | backend/game_logic.py:202-203 | The sorted max log is in descending score order and holds exactly the pairs the loop evaluated (the same multiset), one per explored move; its head score is the best evaluation and every logged move is a stored move. |
| SearchLoop.AscLog | backend/game_logic.py:217-218 | The sorted min log is in ascending score order and holds exactly the evaluated pairs (the same multiset); its head score is the lowest evaluation and every logged move is a stored move. |
| GameTree.SwitchPlayerFacts | backend/game_logic.py:73-81 | The hand-over keeps the board. The opponent moves whenever it can, else the mover keeps the turn. The stored moves are the new mover's. The game ends exactly when neither side can move. |
| GameTree.MakeMoveFacts | backend/game_logic.py:63-71 | A move is accepted iff its cell is a key, and a rejected move changes nothing. An accepted move applies the legal flips, occupies one more cell, and leaves a consistent, settled game. |
| GameTree.ChildPieceCount | backend/game_logic.py:192-194 | When the root count is the true piece count, every child is searched with its own true count (one more). |
| GameTree.SettledNeverPasses | backend/game_logic.py:180-184 | From a consistent, settled game, the search value equals the value with the pass branch removed. |
| GameTree.MakeMoveSettles | backend/game_logic.py:63-81 | Any make_move leaves the game unchanged or consistent and settled. |
| GameLogic.Othello.constructor | backend/game_logic.py:18-27 | The start position with black to move, the current move dictionary with exactly the keys (2,3), (3,2), (4,5), (5,4), a settled game that is not over, with no winner and an empty log. |
| GameLogic.Othello.Copy | backend/game_logic.py:29-34 | A fresh game on a copied board, same side to move, moves recomputed, with game-over, winner and log reset. |
| GameLogic.Othello.DetermineWinner | backend/game_logic.py:88-95 | Records the colour with more pieces, or EMPTY on a tie, and changes nothing else. |
| GameLogic.Othello.SwitchPlayer | backend/game_logic.py:73-81 | The new state is the value-level hand-over. The winner is recorded exactly when the game ends. |
| GameLogic.Othello.MakeMove | backend/game_logic.py:63-71 | Accepted iff the cell is a key of the stored dictionary. The new state is the value-level make_move, and the dictionary stays current. |
| GameLogic.MinimaxAlphaBeta | backend/game_logic.py:176-218 | Fail-soft for the game-tree value, exact with the full window. Leaves are evaluated with no move and an empty log. Otherwise the move is a legal key, and the log is sorted for the role, headed by the result and a reordering of one (evaluation, move) pair per explored move, each evaluation fail-soft for its child's value under the window it was searched with. The move is the first explored move whose evaluation equals the result; with the full window every move is explored and it is the first best child. |
| GameLogic.SearchAfterPass | backend/game_logic.py:180-184 | Searching the copied, switched game one ply shallower with roles swapped gives the fail-soft value of the pass. |
| GameLogic.MaxNode | backend/game_logic.py:186-203 | The max loop over the stored moves returns the fail-soft maximum, the first explored move reaching it, and the descending log of the explored (evaluation, move) pairs, each evaluation fail-soft for its child's value under the alpha raised by the evaluations before it. |
| GameLogic.MinNode | backend/game_logic.py:204-218 | The min loop returns the fail-soft minimum, the first explored move reaching it, and the ascending log of the explored (evaluation, move) pairs, each evaluation fail-soft for its child's value under the beta lowered by the evaluations before it. |
| GameLogic.SearchChild | backend/game_logic.py:192-194 | The child searched for stored move i is the game-tree child of that move, one ply shallower with one more piece. |
| Enhanced.Othello.constructor | EnhancedOthello.py:64-77 | The start position, black to move, the move dictionary with exactly black's four opening keys, settled and not over, with empty history, log and last move and no winner. |
| Enhanced.Othello.Clone | EnhancedOthello.py:453 | The deep copy carries every field over, the game-over flag included, on a fresh board. |
| Enhanced.Othello.DetermineWinner | EnhancedOthello.py:146-151 | Records the colour with more pieces, or EMPTY on a tie, and changes nothing else. |
| Enhanced.Othello.SwitchPlayer | EnhancedOthello.py:129-138 | The value-level hand-over, leaving a settled state. The winner is recorded exactly when the game ends. |
| Enhanced.Othello.MakeMove | EnhancedOthello.py:109-127 | Accepted iff the cell is a key. On success the old board is appended to the history, the last move is recorded and the state is the value-level make_move. On rejection nothing changes. |
| Opening.OpeningCell | backend/game_logic.py:42-46 | In the start position, a cell contributes a key to black's dictionary exactly when it is (2,3), (3,2), (4,5) or (5,4). |
| Opening.OpeningKeysBelow | backend/game_logic.py:39-47 | The row-major scan of the first n cells of the start position finds exactly the opening moves among them, in order. |
| Opening.OpeningMoves | backend/game_logic.py:18-23 | The dictionary built at construction has exactly the four keys (2,3), (3,2), (4,5), (5,4), in that order. |
| Enhanced.Othello.PlacePiece | EnhancedOthello.py:112-118 | Records the old board in the history, marks the last move and leaves the board with the mover's piece placed and every listed piece flipped; turn, move list and outcome are unchanged. |
| Enhanced.MinimaxAlphaBeta | EnhancedOthello.py:446-487 | The same guarantee as the backend search, over deep copies. |
| Enhanced.SearchAfterPass | EnhancedOthello.py:451-455 | The pass branch gives the fail-soft value of the pass. |
| Enhanced.MaxNode | EnhancedOthello.py:457-473 | The max loop's fail-soft maximum, the first explored move reaching it, and the descending log of the explored (evaluation, move) pairs, each evaluation fail-soft for its child's value under the alpha raised by the evaluations before it. |
| Enhanced.MinNode | EnhancedOthello.py:474-487 | The min loop's fail-soft minimum, the first explored move reaching it, and the ascending log of the explored (evaluation, move) pairs, each evaluation fail-soft for its child's value under the beta lowered by the evaluations before it. |
| Enhanced.SearchChild | EnhancedOthello.py:463-465 | The deep-copied child of stored move i is the game-tree child. |
| Classic.PlayFacts | Othello.py:97-114 | A move is accepted iff its cell is a key, and a rejected move changes nothing. An accepted move applies the legal flips, and the opponent moves next iff it can. The new list is current, and it is empty iff neither side can move. |
| Classic.PlayKeepsCurrent | Othello.py:97-118 | Every move keeps the stored list current. |
| Classic.CurrentNeverPasses | Othello.py:254-259 | From a current position, the search's value equals the value with the pass branch removed. |
| Classic.Othello.constructor | Othello.py:49-59 | The start position with black to move and a current move list whose keys are exactly black's four opening moves, and an empty log. |
| Classic.Othello.UpdateValidMoves | Othello.py:116-118 | The stored list becomes the mover's legal moves; nothing else changes. |
| Classic.Othello.MakeMove | Othello.py:97-114 | Accepted iff the cell is a key. The new state is the value-level move, and the list stays current. |
| Classic.Othello.GetScore | Othello.py:120-124 | The black and white piece counts, at most 64 together. |
| Classic.Othello.IsGameOver | Othello.py:126-128 | Over exactly when the side to move has no legal move. |
| Classic.Othello.Clone | Othello.py:258 | A deep copy on a fresh board with every field carried over. |
| Classic.Minimax | Othello.py:246-294 | Fail-soft for the classic tree value, exact with the full window. Leaves are evaluated with no move. Otherwise the move is a legal key, and the log is sorted, headed by the result and a reordering of one (evaluation, move) pair per explored move, each evaluation fail-soft for its child's value under the window it was searched with. The move is the first explored move whose evaluation equals the result; with the full window every move is explored and it is the first best child. |
| Classic.MaxNode | Othello.py:261-279 | The max loop's fail-soft maximum, the first explored move reaching it, and the descending log of the explored (evaluation, move) pairs, each evaluation fail-soft for its child's value under the alpha raised by the evaluations before it. |
| Classic.MinNode | Othello.py:280-294 | The min loop's fail-soft minimum, the first explored move reaching it, and the ascending log of the explored (evaluation, move) pairs, each evaluation fail-soft for its child's value under the beta lowered by the evaluations before it. |
| Classic.SearchChild | Othello.py:267-269 | The deep-copied child of move i is the value-level child of that move. |
| Worker.DynamicEvaluateBoard | othello-ai/src/aiworker.js:47-86 | The worker's evaluator with ternary-chain weights returns the same phase-weighted score as the Python copies. |
| Worker.NoMovesValue | othello-ai/src/aiworker.js:122-130 | When the AI has no move, the tree value is the board's evaluation at every depth. |
| Worker.MinChildOnlyPlaces | othello-ai/src/aiworker.js:157-158 | A min node's child differs from its parent only in the target cell, now the opponent's colour. |
| Worker.MinimaxAlphaBeta | othello-ai/src/aiworker.js:120-171 | Fail-soft for the worker's tree value, exact with the full window. At depth 0, or when the AI has no move, the result is the evaluation with no move and an empty log. Otherwise the move is one of the AI's legal moves, and the log is sorted, headed by the result and a reordering of one (evaluation, move) pair per explored move, each evaluation fail-soft for its child's value under the window it was searched with. The move is the first explored move whose evaluation equals the result; with the full window every move is explored and it is the first best child. |
| Worker.SearchAfterPass | othello-ai/src/aiworker.js:122-130 | The pass branch returns the board's evaluation, with no move and an empty log. |
| Worker.MaxNode | othello-ai/src/aiworker.js:134-151 | The max loop's fail-soft maximum, the first explored move reaching it, and the descending log of the explored (evaluation, move) pairs, each evaluation fail-soft for its child's value under the alpha raised by the evaluations before it. |
| Worker.MinNode | othello-ai/src/aiworker.js:152-170 | The min loop's fail-soft minimum, the first explored move reaching it, and the ascending log of the explored (evaluation, move) pairs, each evaluation fail-soft for its child's value under the beta lowered by the evaluations before it. |
| Worker.SearchChild | othello-ai/src/aiworker.js:137-141 | The painted copy for move i is the worker tree's child of that move, searched with one more piece. |
| Worker.ChildBoard | othello-ai/src/aiworker.js:138-140 | The copy for a move is a fresh board holding the parent with the mover's piece placed and that move's flips painted. |

## Left out

- Rendering, menus, sounds, animations, hover state, timing and threads
  (pygame drawing, `ai_move_thread_worker`, `time.sleep`, `ai_thinking`):
  they have no bearing on the rules or the search.
- The web server routes, the React front ends and the worker's `onmessage`
  glue: they only pass boards and results through.
- The difficulty table that picks the search depth: the depth is a
  parameter of every search method.
- Debug printing and console logging: they produce no state.
- Nested 8x8 lists are modelled as one 64-cell array. A move is a `Pos`
  record, not a tuple or a `"r,c"` string key.
- Python's `-math.inf`/`math.inf` and JS's `±Infinity` are modelled as the
  sentinels `NegInf`/`PosInf`. Every finite score is an unbounded integer.
- Dictionary and object key order is modelled as insertion order, which is
  row-major. Python's `list.sort` and JS's `Array.prototype.sort` are
  modelled by a stable insertion sort.
- Search.SortDescFacts, Search.SortAscFacts: the sort's stability (equal
  scores keep their order) is not stated. Only sortedness and permutation
  are proved.
- GameLogic.Othello.Copy follows the code rather than the prose description
  of a copy. `copy()` builds a new game, so its game-over flag is false, its
  winner is None and its move list is recomputed, even when the original is
  over. The enhanced game's `deepcopy` keeps every field (`Enhanced.Othello.Clone`).
- Classic.Minimax requires the stored move list to be current (`Valid()`).
  This holds for the constructed game and after every `make_move`. The
  recomputed-empty branch, where the pass only flips the side to move, is
  therefore dead in the method. It is modelled in `Classic.Value` and shown
  unreachable by `Classic.CurrentNeverPasses`.
- The backend constructor's `sounds` argument: it is only stored for the
  user interface.
