/**
 * The game-tree search of ChessComputer as functions: minimax with
 * min_value / max_value, alphabeta with min_value_ab / max_value_ab, and
 * scores, each following the loops and early returns of the source.
 *
 * Depth bookkeeping is the source's: the root adds 1 to the depth, every
 * helper first subtracts 1 (d below), a helper whose side to move has lost
 * its King returns evaluate_board(b, d), and at d == 1 both the min and the
 * max helpers return the minimum of the children's evaluations.  The two
 * exceptions the search can raise are Failure values that propagate.
 */
module Search {
  import opened Wrappers
  import opened Notation
  import opened Board
  import opened Rules
  import opened MoveGen
  import opened Evaluation

  /** The sentinel 9999999 the search starts its best values from. */
  const Infinity: int := 9999999

  /** possible_moves[0] on an empty list (IndexError); min() of an empty list (ValueError). */
  datatype SearchError = NoRootMove | EmptyScores

  type Outcome<T> = Result<T, SearchError>

  predicate AllMoveStrings(ms: seq<string>) {
    forall m | m in ms :: IsMoveString(m)
  }

  /** Python's min() on a list of scores: its least element, and an error on an empty list. */
  function MinOf(s: seq<int>): (r: Outcome<int>)
    ensures r.Success? <==> s != []
    ensures r.Success? ==> r.value in s && forall k | 0 <= k < |s| :: r.value <= s[k]
    ensures r.Failure? ==> r.error == EmptyScores
  {
    if s == [] then Failure(EmptyScores)
    else if |s| == 1 then Success(s[0])
    else
      var rest := MinOf(s[1..]).value;
      Success(if s[0] <= rest then s[0] else rest)
  }

  /** scores: the evaluation, at depth d, of the board after each move, in order. */
  function Scores(p: Position, moves: seq<string>, d: int): (r: seq<int>)
    requires Valid(p) && AllMoveStrings(moves)
    ensures |r| == |moves|
    ensures forall k | 0 <= k < |moves| :: r[k] == Evaluate(Apply(p, moves[k]), d)
  {
    seq(|moves|, k requires 0 <= k < |moves| => Evaluate(Apply(p, moves[k]), d))
  }

  // ---- minimax -------------------------------------------------------------------

  /** min_value(b, depth). */
  function MinValue(p: Position, depth: int): Outcome<int>
    requires Valid(p) && depth >= 2
    decreases depth, 1
  {
    var d := depth - 1;
    if KingDead(p, p.turn) then Success(Evaluate(p, d))
    else if d == 1 then MinOf(Scores(p, LegalMoves(p), d))
    else MinLoop(p, LegalMoves(p), d, Infinity)
  }

  /** The for-loop of min_value over the moves still to visit, with `best` so far. */
  function MinLoop(p: Position, moves: seq<string>, d: int, best: int): Outcome<int>
    requires Valid(p) && AllMoveStrings(moves) && d >= 2
    decreases d + 1, 0, |moves|
  {
    if moves == [] then Success(best)
    else match MaxValue(Apply(p, moves[0]), d)
      case Failure(e) => Failure(e)
      case Success(v) => MinLoop(p, moves[1..], d, if v < best then v else best)
  }

  /** max_value(b, depth); at d == 1 it returns the minimum, as the source does. */
  function MaxValue(p: Position, depth: int): Outcome<int>
    requires Valid(p) && depth >= 2
    decreases depth, 1
  {
    var d := depth - 1;
    if KingDead(p, p.turn) then Success(Evaluate(p, d))
    else if d == 1 then MinOf(Scores(p, LegalMoves(p), d))
    else MaxLoop(p, LegalMoves(p), d, -Infinity)
  }

  /** The for-loop of max_value. */
  function MaxLoop(p: Position, moves: seq<string>, d: int, best: int): Outcome<int>
    requires Valid(p) && AllMoveStrings(moves) && d >= 2
    decreases d + 1, 0, |moves|
  {
    if moves == [] then Success(best)
    else match MinValue(Apply(p, moves[0]), d)
      case Failure(e) => Failure(e)
      case Success(v) => MaxLoop(p, moves[1..], d, if v > best then v else best)
  }

  /** a is strictly better than b for `side`: lower for Black, higher for White. */
  predicate Better(side: Side, a: int, b: int) {
    if side == Black then a < b else a > b
  }

  /** The initial best_score of the root: 9999999 for Black, -9999999 for White. */
  function Worst(side: Side): int {
    if side == Black then Infinity else -Infinity
  }

  /** The value minimax gives the root's child after move m: max_value for Black, min_value for White. */
  function ChildValue(p: Position, m: string, depth: int): Outcome<int>
    requires Valid(p) && IsMoveString(m) && depth >= 2
  {
    if p.turn == Black then MaxValue(Apply(p, m), depth) else MinValue(Apply(p, m), depth)
  }

  /** The for-loop of minimax, keeping the first move whose value is strictly better. */
  function RootLoop(p: Position, moves: seq<string>, depth: int, bestScore: int, bestMove: string)
    : Outcome<(int, string)>
    requires Valid(p) && AllMoveStrings(moves) && depth >= 2
    decreases |moves|
  {
    if moves == [] then Success((bestScore, bestMove))
    else match ChildValue(p, moves[0], depth)
      case Failure(e) => Failure(e)
      case Success(v) =>
        if Better(p.turn, v, bestScore) then RootLoop(p, moves[1..], depth, v, moves[0])
        else RootLoop(p, moves[1..], depth, bestScore, bestMove)
  }

  /** minimax(b, depth): (best_score, best_move). */
  function Minimax(p: Position, depth: int): Outcome<(int, string)>
    requires Valid(p) && depth >= 1
  {
    var moves := LegalMoves(p);
    if moves == [] then Failure(NoRootMove)
    else RootLoop(p, moves, depth + 1, Worst(p.turn), moves[0])
  }

  // ---- alpha-beta ------------------------------------------------------------------

  /** min_value_ab(b, depth, alpha, beta). */
  function MinValueAB(p: Position, depth: int, alpha: int, beta: int): Outcome<int>
    requires Valid(p) && depth >= 2
    decreases depth, 1
  {
    var d := depth - 1;
    if KingDead(p, p.turn) then Success(Evaluate(p, d))
    else if d == 1 then MinOf(Scores(p, LegalMoves(p), d))
    else MinLoopAB(p, LegalMoves(p), d, alpha, beta, Infinity)
  }

  /** The for-loop of min_value_ab: return at once when a value is <= alpha, else narrow beta. */
  function MinLoopAB(p: Position, moves: seq<string>, d: int, alpha: int, beta: int, best: int): Outcome<int>
    requires Valid(p) && AllMoveStrings(moves) && d >= 2
    decreases d + 1, 0, |moves|
  {
    if moves == [] then Success(best)
    else match MaxValueAB(Apply(p, moves[0]), d, alpha, beta)
      case Failure(e) => Failure(e)
      case Success(v) =>
        if v <= alpha then Success(v)
        else MinLoopAB(p, moves[1..], d, alpha, if beta <= v then beta else v, if v < best then v else best)
  }

  /** max_value_ab(b, depth, alpha, beta); at d == 1 it returns the minimum, as the source does. */
  function MaxValueAB(p: Position, depth: int, alpha: int, beta: int): Outcome<int>
    requires Valid(p) && depth >= 2
    decreases depth, 1
  {
    var d := depth - 1;
    if KingDead(p, p.turn) then Success(Evaluate(p, d))
    else if d == 1 then MinOf(Scores(p, LegalMoves(p), d))
    else MaxLoopAB(p, LegalMoves(p), d, alpha, beta, -Infinity)
  }

  /** The for-loop of max_value_ab: return at once when a value is >= beta, else widen alpha. */
  function MaxLoopAB(p: Position, moves: seq<string>, d: int, alpha: int, beta: int, best: int): Outcome<int>
    requires Valid(p) && AllMoveStrings(moves) && d >= 2
    decreases d + 1, 0, |moves|
  {
    if moves == [] then Success(best)
    else match MinValueAB(Apply(p, moves[0]), d, alpha, beta)
      case Failure(e) => Failure(e)
      case Success(v) =>
        if v >= beta then Success(v)
        else MaxLoopAB(p, moves[1..], d, if alpha >= v then alpha else v, beta, if v > best then v else best)
  }

  /** The value alphabeta gives a root child: every child is searched with the full window. */
  function ChildValueAB(p: Position, m: string, depth: int): Outcome<int>
    requires Valid(p) && IsMoveString(m) && depth >= 2
  {
    if p.turn == Black then MaxValueAB(Apply(p, m), depth, -Infinity, Infinity)
    else MinValueAB(Apply(p, m), depth, -Infinity, Infinity)
  }

  /** The for-loop of alphabeta. */
  function RootLoopAB(p: Position, moves: seq<string>, depth: int, bestScore: int, bestMove: string)
    : Outcome<(int, string)>
    requires Valid(p) && AllMoveStrings(moves) && depth >= 2
    decreases |moves|
  {
    if moves == [] then Success((bestScore, bestMove))
    else match ChildValueAB(p, moves[0], depth)
      case Failure(e) => Failure(e)
      case Success(v) =>
        if Better(p.turn, v, bestScore) then RootLoopAB(p, moves[1..], depth, v, moves[0])
        else RootLoopAB(p, moves[1..], depth, bestScore, bestMove)
  }

  /**
   * alphabeta(b, depth, alpha, beta).  The alpha and beta it is given are
   * overwritten with -9999999 and 9999999 before they are read.
   */
  function AlphaBeta(p: Position, depth: int, alpha: int, beta: int): Outcome<(int, string)>
    requires Valid(p) && depth >= 1
  {
    var moves := LegalMoves(p);
    if moves == [] then Failure(NoRootMove)
    else RootLoopAB(p, moves, depth + 1, Worst(p.turn), moves[0])
  }
}
