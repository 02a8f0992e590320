# A verified model of the chessgame.py engine

This project models the chess engine in `software4students/chessgame.py`. It covers three parts:

- the square notation (`to_coordinate`, `to_notation`, `to_move`);
- `ChessBoard`: the board-text parser, `make_move`, `is_king_dead`, the legality tests and move generation;
- the static `ChessComputer` search: `minimax`, `alphabeta` with their `*_value*` helpers, `scores`, and the material evaluation.

The rules are modelled as the code writes them, not as chess defines them. Some consequences, each proved by a contract or a lemma here:

- `outside_board` rejects only the null move.
- A pawn may step straight onto an enemy piece.
- Bishops and Queens move along the `(+i, +i)` diagonal only.
- Any unknown material moves like a King (`Rules.UnknownMovesLikeKing`) and scores 150 (`Evaluation.GetScore`).
- At the last level, `max_value` also returns the minimum of the child scores.

Modules, in dependency order:

- `Wrappers`: the `Option` and `Result` datatypes.
- `Notation`: squares and move strings.
- `Board`: `Position`, the value of a `ChessBoard`, with `SetPiece`, `Apply` (`make_move`) and `KingDead`.
- `BoardText`: `load_from_input` as a state machine over characters.
- `Rules`: `outside_board`, `spot_occupied`, `piece_restriction`, `path_obstructed`, `check_*` and `is_legal_move`.
- `MoveGen`: `all_moves` and `legal_moves`, with soundness, completeness and order.
- `Evaluation`: `get_score`, `get_weight`, `count_pieces` and `evaluate_board`.
- `Search`: minimax and alpha-beta as recursive functions that follow the source's loops and early returns. The two exceptions they can raise are `Failure` values.
- `SearchProofs`: two results.
  - Alpha-beta returns exactly what minimax returns, given the depth bound below.
  - Both pick the first root move whose value is strictly best for the side to move.
- `Chess`: `class ChessBoard`, with fields `turn` and `matrix`. Its methods mutate the fields or loop as the source does. Each method is proved equal to the matching function of the value model.
- `ChessComputer`: the static search methods, written with loops over a `ChessBoard` and proved equal to the `Search` functions.

Python exceptions become explicit results:

- `possible_moves[0]` on an empty move list becomes `Failure(NoRootMove)`.
- `min([])` becomes `Failure(EmptyScores)`.
- `load_from_input` writing past column 7 becomes the `Crashed` phase.

## Where the code departs from the rules of chess

- **Off-board moves.** The comment on `outside_board` (chessgame.py:263) says it checks that a move starts and stays inside the board. Its chained comparisons `0 > a > 7` are always false, so it rejects only the null move (`Rules.OutsideBoard`). `all_moves` produces only on-board squares, so no move that `legal_moves` tests is off the board. Moves typed by a person do reach it; they are left out (see below).
- **Pawns.**
  - In chess a pawn steps straight only onto an empty square. `piece_restriction` accepts a straight step whatever stands there. `spot_occupied` then rejects only a friendly piece, so a pawn can capture straight ahead (`Rules.PawnCapturesStraight`).
  - A diagonal step is accepted only onto an occupied square, as the capture rule of chess demands.
- **Bishop and Queen diagonals.** In chess both move along both diagonals. The code compares signed deltas, and `check_diagonal` walks `(+i, +i)` only. So no Bishop, Queen or Rook move along the `(+1, -1)` diagonal is ever legal, not even a single step (`Rules.BishopHasOneDiagonal`).
- **Depth.** The search has two leaf rules:
  - a node whose side to move has lost its King is a leaf;
  - at remaining depth 1, both the min and the max helper return the minimum of the child evaluations (`SearchProofs.HorizonIsMinimum`). For `max_value` this is the minimum where a maximum belongs.
- **Alpha-beta equals minimax.** The comments at chessgame.py:403-408 and 530-533 present `alphabeta` as a drop-in for `minimax` with extra pruning parameters. The proof that it returns the same answer (`SearchProofs.AlphaBetaAgreesWithMinimax`) assumes two conditions:
  - minimax does not raise;
  - depth <= 1041, so that every value stays inside the ±9999999 sentinels.

  Neither condition is shown to be necessary.
- **No legal moves at the root.** `possible_moves[0]` raises `IndexError` when there is no legal move. The model represents this as `Failure(NoRootMove)`, which occurs exactly when there is no legal move (`SearchProofs.NoRootMoveIffNoLegalMove`).

## Model

| member | source | states |
|---|---|---|
| Notation.ToCoordinate | software4students/chessgame.py:10-13 | the decoded square is on the board exactly when the file is a-h and the rank 1-8 |
| Notation.ToNotation | software4students/chessgame.py:17-21 | an on-board square becomes a file letter and a rank digit, which `to_coordinate` decodes back to the same square |
| Notation.NotationRoundTrip | software4students/chessgame.py:10-21 | encoding the decoded name of a well-formed square gives the name back |
| Notation.ToMove | software4students/chessgame.py:25-26 | `to_move(a, b)` is a four-character move string whose halves decode to a and b |
| Board.EmptyGrid | software4students/chessgame.py:77 | the starting grid is 8x8 and every square is None |
| Board.ScanSquare | software4students/chessgame.py:175-176 | step k of the `for x: for y:` scans visits an on-board square whose index 8x+y is k |
| Board.PieceAt | software4students/chessgame.py:66-68 | `get_boardpiece((x, y))` is `board_matrix[y][x]` |
| Board.KingDead | software4students/chessgame.py:158-166 | `is_king_dead(side)`: no square holds a King of that side |
| Board.SetPiece | software4students/chessgame.py:71-73 | `set_boardpiece` changes square s to the piece; the turn and every other square are unchanged |
| Board.Apply | software4students/chessgame.py:134-156 | `make_move`: the turn flips, the origin is emptied, the destination holds the old origin piece, every other square is unchanged |
| Board.UndoQuietMove | software4students/chessgame.py:134-156 | a non-capturing move followed by its reverse restores the position exactly, turn included |
| Board.CaptureIsNotUndone | software4students/chessgame.py:134-156 | after a capture and its reverse, the captured square is empty and the position differs from the start |
| BoardText.Step | software4students/chessgame.py:79-105 | one loop iteration keeps the grid 8x8 and the counters in range |
| BoardText.Run | software4students/chessgame.py:79-105 | the loop keeps the grid 8x8 and the counters in range |
| BoardText.Load | software4students/chessgame.py:76-105 | `load_from_input` always leaves an 8x8 grid |
| BoardText.RunAppend | software4students/chessgame.py:79-105 | reading a + b is reading a, then b, from the state a leaves (the parser never looks back) |
| BoardText.GridOf | software4students/chessgame.py:97-104 | the grid of a board text holds, at each (x, y), the cell that character denotes |
| BoardText.ReadRowPrefix | software4students/chessgame.py:80-105 | reading the first k cells of row y places exactly those k cells and leaves x = k |
| BoardText.ReadCell | software4students/chessgame.py:89-105 | one cell character either skips the square ('.') or writes the piece it denotes, and advances x |
| BoardText.ReadRows | software4students/chessgame.py:80-105 | after n rows and their newlines, rows 0..n-1 are placed, y = n and x = 0 |
| BoardText.BoardTextLoads | software4students/chessgame.py:76-105 | loading eight rows of eight cells and then c gives the board those rows describe. Upper case is White and anything else is Black, with material lower-cased. c sets the turn only if it is 'W' or 'B', and nothing after c is read. Stated for rows ended by a bare newline; CRLF line ends are covered by `BoardText.CrlfBoardTextLoads` |
| BoardText.SkipCR | software4students/chessgame.py:87-88 | a '\r' read before the eighth newline changes nothing: the input with it removed gives the same final state |
| BoardText.ReadCrlfRows | software4students/chessgame.py:80-105 | after n rows ended by "\r\n", rows 0..n-1 are placed, y = n and x = 0 |
| BoardText.CrlfBoardTextLoads | software4students/chessgame.py:76-105 | a board text with CRLF line ends and then c loads the same board and turn as the same text with bare newlines |
| BoardText.CharPiece | software4students/chessgame.py:97-103 | the piece a cell character denotes: upper case White, anything else Black, material the lower-cased character |
| BoardText.TurnAfter | software4students/chessgame.py:81-86 | the turn after the character past the eighth newline: 'W' gives White, 'B' gives Black, anything else keeps the turn |
| Rules.OutsideBoard | software4students/chessgame.py:264-271 | `outside_board` is true exactly for the null move |
| Rules.SpotOccupied | software4students/chessgame.py:254-261 | `spot_occupied` is true exactly when the destination holds a piece of the origin piece's side |
| Rules.PieceRestriction | software4students/chessgame.py:275-337 | `piece_restriction` rejects exactly the moves that do not move a piece of the side to move in the shape its material allows (pawn, rook, queen, bishop or king-like rule) |
| Rules.Obstructed | software4students/chessgame.py:361-397 | a `check_*` function's answer: some square its loop reads is occupied |
| Rules.PathObstructed | software4students/chessgame.py:341-358 | `path_obstructed`: false for Pawns and Kings. Otherwise it runs the diagonal walk when the absolute deltas are equal, the horizontal walk when dx is not 0, and the vertical walk otherwise |
| Rules.LoopRange | software4students/chessgame.py:361-397 | the `range(...)` of a `check_*` loop is exactly the offsets strictly between 0 and end - start |
| Rules.ShapeWalkOnBoard | software4students/chessgame.py:341-397 | for an accepted shape of a sliding piece, every square the `check_*` walk reads is on the board |
| Rules.PathObstructedMeaning | software4students/chessgame.py:341-397 | for a sliding piece making an accepted shape, `path_obstructed` holds exactly when some square strictly between start and end is occupied |
| Rules.ObstructionIsBetween | software4students/chessgame.py:361-397 | an occupied square found by a walk lies strictly between start and end |
| Rules.UnobstructedIsClear | software4students/chessgame.py:361-397 | when a walk finds nothing, every square strictly between start and end is empty |
| Rules.IsLegal | software4students/chessgame.py:198-207 | `is_legal_move` on decoded squares: the four tests in the source's order, each rejecting on true |
| Rules.IsLegalMove | software4students/chessgame.py:196-207 | `is_legal_move(move)`: decode `move[:2]` and `move[2:]`, then `IsLegal` |
| Rules.IsLegalMeaning | software4students/chessgame.py:196-207 | for an occupied origin, `is_legal_move` holds iff all five conditions hold: a real move, no own piece at the destination, a piece of the side to move, an accepted shape, and a clear path for sliding pieces |
| Rules.BishopHasOneDiagonal | software4students/chessgame.py:314-329 | no Bishop, Queen or Rook move along the (+1, -1) diagonal is legal |
| Rules.UnknownMovesLikeKing | software4students/chessgame.py:332-358 | a material other than p, r, q, b and k is legal on exactly the moves a King of the same side would be, although `path_obstructed` walks it like a sliding piece |
| Rules.PawnCapturesStraight | software4students/chessgame.py:285-293 | a pawn may step straight forward onto an enemy piece |
| MoveGen.Candidates | software4students/chessgame.py:187-192 | `all_moves(s)` is 64 move strings from s, the k-th to square (k / 8, k % 8) |
| MoveGen.FilterLegal | software4students/chessgame.py:180-182 | the inner loop of `legal_moves`: the candidates `is_legal_move` accepts, in their order |
| MoveGen.OriginMoves | software4students/chessgame.py:177-182 | the moves one origin adds: nothing unless it holds a piece of the side to move, else its filtered candidates |
| MoveGen.LegalUpTo | software4students/chessgame.py:175-182 | `move_list` after the first o origins of the x, y scan: their origin moves concatenated in scan order |
| MoveGen.FilterLegalMembers | software4students/chessgame.py:180-182 | filtering by `is_legal_move` keeps exactly the legal members |
| MoveGen.OriginMovesSound | software4students/chessgame.py:177-182 | every move collected at origin s starts at s, from a piece of the side to move, and is legal |
| MoveGen.OriginMovesComplete | software4students/chessgame.py:177-182 | every legal move from a square of the side to move is collected at that square |
| MoveGen.LegalUpToSound | software4students/chessgame.py:175-182 | every move collected from the first o origins is legal from a piece of the side to move |
| MoveGen.LegalUpToComplete | software4students/chessgame.py:175-182 | a move collected at an origin before o is in the list after o origins |
| MoveGen.LegalMoves | software4students/chessgame.py:173-183 | `legal_moves` returns well-formed move strings only |
| MoveGen.LegalMovesSound | software4students/chessgame.py:173-183 | every returned move starts on a piece of the side to move and passes `is_legal_move` |
| MoveGen.LegalMovesComplete | software4students/chessgame.py:173-192 | every legal move of a piece of the side to move is returned |
| MoveGen.CandidatesIncreasing | software4students/chessgame.py:187-192 | `all_moves` lists destinations in increasing (i, j) order, all within the origin's key block |
| MoveGen.FilterKeepsKeys | software4students/chessgame.py:180-182 | filtering keeps the order and the key range of its input |
| MoveGen.OriginMovesIncreasing | software4students/chessgame.py:177-182 | the moves from one origin come in increasing order within that origin's block |
| MoveGen.LegalUpToIncreasing | software4students/chessgame.py:175-182 | the list after o origins is increasing, and every key in it is below origin o's block |
| MoveGen.LegalMovesOrdered | software4students/chessgame.py:173-192 | `legal_moves` is ordered by origin x, origin y, destination i, destination j |
| Evaluation.GetScore | software4students/chessgame.py:589-601 | every material scores from 1 to 150: exactly Pawns score 1, exactly Rooks and Bishops 10, exactly Queens 50, and exactly the unlisted materials (King included) 150 |
| Evaluation.GetWeight | software4students/chessgame.py:572-573 | the weight is the remaining depth itself |
| Evaluation.CountUpTo | software4students/chessgame.py:579-584 | `score` of `count_pieces` after the first k squares of the i, j scan |
| Evaluation.CountPieces | software4students/chessgame.py:578-585 | `count_pieces(side)`: the scores of that side's pieces summed over all 64 squares |
| Evaluation.Evaluate | software4students/chessgame.py:563-568 | `evaluate_board(b, d)`: d times White's count minus Black's count |
| Evaluation.ValueAt | software4students/chessgame.py:582-584 | a square adds 0..150 to a side's count, and adds 0 exactly when that side has no piece there |
| Evaluation.CountUpToBounds | software4students/chessgame.py:578-585 | after k squares the count lies between 0 and 150k |
| Evaluation.CountPiecesBounds | software4students/chessgame.py:578-585 | `count_pieces` lies between 0 and 9600 |
| Evaluation.EvaluateBounds | software4students/chessgame.py:563-568 | `evaluate_board(b, d)` lies within ±9600d for d >= 0 |
| Evaluation.CountUpToDiff | software4students/chessgame.py:578-585 | two positions that differ at one square have counts that differ by that square's values, once the scan has passed it |
| Evaluation.CountAfterMove | software4students/chessgame.py:578-585 | after `make_move`, a side's count loses exactly what it had on the destination |
| Evaluation.EvaluateQuietMove | software4students/chessgame.py:563-568 | a move onto an empty square does not change the evaluation |
| Evaluation.EvaluateCapture | software4students/chessgame.py:563-568 | a capture changes the evaluation by d times the captured piece's score, in the capturer's favour |
| Search.MinOf | software4students/chessgame.py:451-452 | `min(scores)` succeeds iff the list is non-empty, with a member no greater than any other; otherwise it fails with EmptyScores |
| Search.Scores | software4students/chessgame.py:523-528 | one score per move: the evaluation of the board after that move |
| Search.MinValue | software4students/chessgame.py:445-459 | `min_value`: the evaluation if the King of the side to move is gone, `min(scores)` at remaining depth 1, else the min loop from 9999999 |
| Search.MinLoop | software4students/chessgame.py:453-459 | the loop of `min_value`: the least of `best` and the children's `max_value`, failing as soon as a child fails |
| Search.MaxValue | software4students/chessgame.py:463-477 | `max_value`: as `min_value`, but the loop maximises from -9999999 (and depth 1 still takes the minimum) |
| Search.MaxLoop | software4students/chessgame.py:471-477 | the loop of `max_value`: the greatest of `best` and the children's `min_value` |
| Search.ChildValue | software4students/chessgame.py:430-437 | a root child's value: `max_value` when Black is to move, `min_value` otherwise |
| Search.RootLoop | software4students/chessgame.py:429-440 | the root loop of `minimax`: the move and score replaced only by a strictly better child |
| Search.Minimax | software4students/chessgame.py:421-441 | `minimax`: IndexError without legal moves, else the root loop from the sentinel and the first move at depth + 1 |
| Search.MinValueAB | software4students/chessgame.py:481-498 | `min_value_ab`: as `min_value` with the pruned loop |
| Search.MinLoopAB | software4students/chessgame.py:489-498 | the loop of `min_value_ab`: returns a child value <= alpha at once, else lowers beta to it |
| Search.MaxValueAB | software4students/chessgame.py:502-519 | `max_value_ab`: as `max_value` with the pruned loop |
| Search.MaxLoopAB | software4students/chessgame.py:510-519 | the loop of `max_value_ab`: returns a child value >= beta at once, else raises alpha to it |
| Search.ChildValueAB | software4students/chessgame.py:546-553 | a root child of `alphabeta`, searched with the window (-9999999, 9999999) |
| Search.RootLoopAB | software4students/chessgame.py:545-556 | the root loop of `alphabeta`, the same strict-improvement rule as minimax |
| Search.AlphaBeta | software4students/chessgame.py:535-557 | `alphabeta`: its alpha and beta arguments unused, otherwise shaped as `minimax` |
| SearchProofs.MaxLoopAtLeast | software4students/chessgame.py:510-519 | the max loop never returns less than its starting best |
| SearchProofs.MinLoopAtMost | software4students/chessgame.py:489-498 | the min loop never returns more than its starting best |
| SearchProofs.MaxValueABSound | software4students/chessgame.py:502-519 | `max_value_ab` with window (alpha, beta) is a fail-soft bound on `max_value`: exact inside the window, a bound outside it |
| SearchProofs.MinValueABSound | software4students/chessgame.py:481-498 | `min_value_ab` is a fail-soft bound on `min_value` |
| SearchProofs.MaxLoopABSound | software4students/chessgame.py:510-519 | the pruned max loop is a fail-soft bound on the unpruned one, cutoff or not |
| SearchProofs.MaxLoopABNoCutoff | software4students/chessgame.py:513-518 | the same when the current child creates no beta cutoff and alpha is raised |
| SearchProofs.MinLoopABSound | software4students/chessgame.py:489-498 | the pruned min loop is a fail-soft bound on the unpruned one |
| SearchProofs.MinLoopABNoCutoff | software4students/chessgame.py:492-497 | the same when the current child creates no alpha cutoff and beta is lowered |
| SearchProofs.EvaluateWithinSentinels | software4students/chessgame.py:563-568 | evaluations up to depth 1041 lie within ±9999999 |
| SearchProofs.HorizonWithinSentinels | software4students/chessgame.py:450-452 | the last-level minimum lies within the sentinels |
| SearchProofs.MinValueBounded | software4students/chessgame.py:445-459 | `min_value` lies within the sentinels up to depth 1041 |
| SearchProofs.MaxValueBounded | software4students/chessgame.py:463-477 | `max_value` lies within the sentinels up to depth 1041 |
| SearchProofs.MinLoopBounded | software4students/chessgame.py:453-459 | the min loop started from a sentinel-bounded best stays within the sentinels |
| SearchProofs.MaxLoopBounded | software4students/chessgame.py:471-477 | the max loop stays within the sentinels |
| SearchProofs.ChildValueBounded | software4students/chessgame.py:430-440 | a root child's value lies within the sentinels |
| SearchProofs.ChildValuesBounded | software4students/chessgame.py:429-440 | every root child's value lies within the sentinels |
| SearchProofs.ChildValueABAgrees | software4students/chessgame.py:546-556 | when the child's minimax value exists and the child depth is 2..1042, a root child searched with the full window gets exactly that value |
| SearchProofs.RootLoopABAgrees | software4students/chessgame.py:545-556 | when the minimax root loop succeeds and the child depth is 2..1042, the alpha-beta root loop returns what the minimax root loop returns |
| SearchProofs.AlphaBetaAgreesWithMinimax | software4students/chessgame.py:535-557 | `alphabeta` returns the same (score, move) as `minimax`, whatever alpha and beta are passed, when minimax succeeds and depth <= 1041 |
| SearchProofs.RootLoopIsScan | software4students/chessgame.py:429-440 | the root loop is a scan over the children's values |
| SearchProofs.RootInvBetter | software4students/chessgame.py:433-440 | taking a strictly better child keeps the first-best invariant |
| SearchProofs.RootInvKeep | software4students/chessgame.py:433-440 | skipping a child that is not strictly better keeps the first-best invariant |
| SearchProofs.ScanFindsFirstBest | software4students/chessgame.py:429-440 | a scan from a state meeting the invariant ends on the first move with the best value |
| SearchProofs.MinimaxIsScan | software4students/chessgame.py:421-441 | a successful minimax has moves and is the scan of its children from the sentinel and the first move |
| SearchProofs.RootScanFindsFirstBest | software4students/chessgame.py:424-440 | a successful root scan picks the first best child |
| SearchProofs.MinimaxPicksFirstBest | software4students/chessgame.py:421-441 | for 1 <= depth <= 1041 and a minimax that does not raise, minimax returns the best child value for the side to move (maximum for White, minimum for Black) and the first move reaching it |
| SearchProofs.AlphaBetaPicksFirstBest | software4students/chessgame.py:535-557 | for 1 <= depth <= 1041 and a minimax that does not raise, `alphabeta` succeeds and the same holds of it |
| SearchProofs.HorizonIsMinimum | software4students/chessgame.py:445-519 | at the last level all four helpers return the same minimum of child evaluations. They fail exactly when the King is present and there are no moves, and then with EmptyScores |
| SearchProofs.MinValueFailsOnlyEmpty | software4students/chessgame.py:445-459 | `min_value` and `min_value_ab` can only fail with the empty-`min` error |
| SearchProofs.MaxValueFailsOnlyEmpty | software4students/chessgame.py:463-477 | `max_value` and `max_value_ab` can only fail with the empty-`min` error |
| SearchProofs.MinLoopFailsOnlyEmpty | software4students/chessgame.py:453-459 | the min loop can only fail with the empty-`min` error |
| SearchProofs.MinLoopABFailsOnlyEmpty | software4students/chessgame.py:489-498 | the pruned min loop can only fail with the empty-`min` error |
| SearchProofs.MaxLoopFailsOnlyEmpty | software4students/chessgame.py:471-477 | the max loop can only fail with the empty-`min` error |
| SearchProofs.MaxLoopABFailsOnlyEmpty | software4students/chessgame.py:510-519 | the pruned max loop can only fail with the empty-`min` error |
| SearchProofs.RootLoopFailsOnlyEmpty | software4students/chessgame.py:429-440 | both root loops can only fail with the empty-`min` error |
| SearchProofs.NoRootMoveIffNoLegalMove | software4students/chessgame.py:421-441 | both searches raise the IndexError exactly when there is no legal move; any other failure is the empty-`min` error |
| Chess.ChessBoard.constructor | software4students/chessgame.py:55-58 | a new board has the given turn and no matrix |
| Chess.ChessBoard.SetBoardMatrix | software4students/chessgame.py:62-63 | the matrix is replaced and the turn kept |
| Chess.ChessBoard.GetBoardPiece | software4students/chessgame.py:66-68 | returns the piece at (x, y) of the board's value |
| Chess.ChessBoard.SetBoardPiece | software4students/chessgame.py:71-73 | the new value is the old one with square s set |
| Chess.ChessBoard.LoadFromInput | software4students/chessgame.py:76-105 | the loop leaves the board the parser function gives for the input and the old turn, and crashes exactly when that function does |
| Chess.ChessBoard.MakeMove | software4students/chessgame.py:134-156 | returns a fresh board whose value is `Apply` of the receiver's value; the receiver is unchanged |
| Chess.ChessBoard.IsKingDead | software4students/chessgame.py:158-166 | true exactly when no square holds a King of that side |
| Chess.ChessBoard.LegalMoves | software4students/chessgame.py:173-183 | returns the `legal_moves` list of the value model, which is sound, complete and ordered |
| Chess.ChessBoard.LegalMovesOfRow | software4students/chessgame.py:176-182 | one pass of the y-loop extends the list from origins before column x to origins before column x+1 |
| Chess.ChessBoard.OriginMovesAt | software4students/chessgame.py:177-182 | collects the moves of one origin: none unless it holds a piece of the side to move |
| Chess.ChessBoard.LegalMovesFrom | software4students/chessgame.py:179-182 | keeps exactly the legal candidates of an occupied origin, in order |
| Chess.ChessBoard.AllMoves | software4students/chessgame.py:187-192 | 64 move strings from the square, the k-th to (k / 8, k % 8) |
| Chess.ChessBoard.IsLegalMove | software4students/chessgame.py:196-207 | agrees with the legality function for a move from an occupied square |
| Chess.ChessBoard.PathObstructed | software4students/chessgame.py:341-358 | agrees with the obstruction function |
| Chess.ChessBoard.CheckHorizontal | software4students/chessgame.py:361-371 | true exactly when some square the horizontal walk reads is occupied |
| Chess.ChessBoard.CheckVertical | software4students/chessgame.py:373-383 | true exactly when some square the vertical walk reads is occupied |
| Chess.ChessBoard.CheckDiagonal | software4students/chessgame.py:385-397 | true exactly when some square the (+i, +i) walk reads is occupied |
| ChessComputer.ComputerMove | software4students/chessgame.py:409-415 | returns minimax's or alphabeta's answer. It fails with NoRootMove exactly when there is no legal move. When minimax succeeds and depth <= 1041, both answers agree and pick the first best move |
| ChessComputer.MinimaxSearch | software4students/chessgame.py:421-441 | the loops compute `Minimax` |
| ChessComputer.RootSearch | software4students/chessgame.py:429-440 | the root loop computes the root scan of minimax |
| ChessComputer.ChildValueSearch | software4students/chessgame.py:430-437 | the value of one root child: `max_value` for Black, `min_value` for White |
| ChessComputer.MinValueSearch | software4students/chessgame.py:445-459 | computes `min_value` |
| ChessComputer.MinOverMoves | software4students/chessgame.py:453-459 | the min loop from 9999999 |
| ChessComputer.MaxValueSearch | software4students/chessgame.py:463-477 | computes `max_value`, including the minimum at the last level |
| ChessComputer.MaxOverMoves | software4students/chessgame.py:471-477 | the max loop from -9999999 |
| ChessComputer.MinValueABSearch | software4students/chessgame.py:481-498 | computes `min_value_ab` |
| ChessComputer.MinOverMovesAB | software4students/chessgame.py:489-498 | the pruned min loop, returning early when a value is at most alpha and lowering beta |
| ChessComputer.MaxValueABSearch | software4students/chessgame.py:502-519 | computes `max_value_ab` |
| ChessComputer.MaxOverMovesAB | software4students/chessgame.py:510-519 | the pruned max loop, returning early when a value is at least beta and raising alpha |
| ChessComputer.LeastScore | software4students/chessgame.py:451-452 | `min(scores(...))`, failing on no moves |
| ChessComputer.ScoresOf | software4students/chessgame.py:523-528 | the list of evaluations after each move |
| ChessComputer.AlphaBetaSearch | software4students/chessgame.py:535-557 | the loops compute `AlphaBeta` |
| ChessComputer.RootSearchAB | software4students/chessgame.py:545-556 | the alpha-beta root loop with the full window |
| ChessComputer.ChildValueABSearch | software4students/chessgame.py:546-553 | one root child searched with window (-9999999, 9999999) |
| ChessComputer.EvaluateBoard | software4students/chessgame.py:563-568 | computes `evaluate_board` |
| ChessComputer.CountPiecesOf | software4students/chessgame.py:578-585 | the double loop computes `count_pieces` |
| ChessComputer.CountRow | software4students/chessgame.py:581-584 | one pass of the inner loop adds the eight squares of column i |

## Left out

- `ChessGame` is left out: file reading, `sys.argv`, console input and output, and `sys.exit`. The same goes for the module-level driver and the unused `numpy` and `deepcopy` imports.
- `ChessBoard.__str__` is display only.
- `king_check` and the second `stale_mate` are referenced only from commented-out code.
- The first `stale_mate` calls functions that do not exist and is shadowed by the second.
- `check_kings_only` is not modelled: it returns False at the first square it looks at, and it prints.
- Move strings typed by a person that leave the board are not modelled. `make_human_move` passes them to `is_legal_move` (chessgame.py:659), which hands them to `get_boardpiece`. There they either raise IndexError (an index of 8 or more, or below -8: a file past 'h', rank '0', a capital file letter) or, through negative indexing, read a square at the opposite edge (rank '9' reads rank 1). The model requires `IsMoveString` (both squares on the board), which is all `all_moves` produces.
- ChessComputer.ComputerMove: the source's default argument `alphabeta=False` (chessgame.py:409) becomes the required parameter `useAlphaBeta`. The only call (chessgame.py:645) passes True.
- Notation.ToNotation: modelled for on-board squares only, the only ones passed to it.
- Rules.PathObstructed: requires that the walk stays on the board for sliding pieces. `Rules.ShapeWalkOnBoard` proves this for every move that reaches it through `is_legal_move`.
- Rules.PieceRestriction: requires an occupied origin. The source reads `piece.side` first, so an empty origin raises before the `None` test is reached. `legal_moves` never calls it on an empty origin.
- BoardText.IsUpper: models `str.isupper` and `str.lower` for ASCII letters only. Other Unicode case mappings are not modelled.
- `board_matrix = None` in the constructor is modelled as the empty sequence.
- The search helpers need depth >= 2, which every call receives because the root adds 1 to a depth >= 1. With a root depth of 0 or less the source's recursion passes depth 1 without stopping and need not terminate, so such depths are excluded.
- SearchProofs.AlphaBetaAgreesWithMinimax: proved only for depth <= 1041, where every evaluation stays inside the ±9999999 sentinels, and only when minimax does not raise. Deeper, a weighted score could pass a sentinel.
- SearchProofs.ChildValueABAgrees: proved only for child depths up to 1042 and for a child whose minimax value exists, for the same reason.
- SearchProofs.RootLoopABAgrees: proved only for child depths up to 1042 and for a minimax root loop that succeeds.
- SearchProofs.MinimaxPicksFirstBest: proved only for depth <= 1041 and a minimax that does not raise. Deeper, every child may score beyond the root's sentinel. The root then keeps the sentinel score and `possible_moves[0]`, a score no child reaches.
- SearchProofs.AlphaBetaPicksFirstBest: proved under the same two conditions as `MinimaxPicksFirstBest`.
- The loops of `legal_moves`, `count_pieces` and the search helpers are split over several methods, one per loop or per loop body (for example `LegalMovesOfRow`, `CountRow`, `MinOverMovesAB`). Their order of evaluation and their results are unchanged.
- Chess.ChessBoard.MakeMove: the copied rows are modelled as values (`seq`). The aliasing of row lists between Python boards is not modelled. The copy in `make_move` means no row is shared.
- Python integers are unbounded, as are Dafny's, so no wrap-around is involved.
