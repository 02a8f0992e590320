/**
 * The static methods of ChessComputer over a ChessBoard object.  Every
 * method returns what the function of the same name in Search or
 * Evaluation gives for the board's value, so the properties proved there
 * (alphabeta agrees with minimax, the first best move is chosen, which
 * exception is raised) hold of computer_move.
 */
module ChessComputer {
  import opened Wrappers
  import opened Notation
  import opened Board
  import opened MoveGen
  import opened Evaluation
  import opened Search
  import opened SearchProofs
  import opened Chess

  /**
   * computer_move(chessboard, depth, alphabeta): minimax, or alphabeta
   * called with -99999999 and 99999999 (which it overwrites).  Both give
   * the same answer and pick the first best legal move whenever minimax
   * returns and 1 <= depth <= 1041; the IndexError of an empty move list
   * is raised exactly when the side to move has no legal move.
   */
  method ComputerMove(b: ChessBoard, depth: int, useAlphaBeta: bool) returns (r: Outcome<(int, string)>)
    requires b.Valid() && depth >= 1
    ensures r == if useAlphaBeta then AlphaBeta(b.Model(), depth, -99999999, 99999999) else Minimax(b.Model(), depth)
    ensures r == Failure(NoRootMove) <==> MoveGen.LegalMoves(b.Model()) == []
    ensures depth <= MaxSafeDepth && Minimax(b.Model(), depth).Success? ==>
              r == Minimax(b.Model(), depth) && FirstBest(b.Model(), MoveGen.LegalMoves(b.Model()), depth + 1, r.value)
  {
    NoRootMoveIffNoLegalMove(b.Model(), depth, -99999999, 99999999);
    if depth <= MaxSafeDepth && Minimax(b.Model(), depth).Success? {
      AlphaBetaPicksFirstBest(b.Model(), depth, -99999999, 99999999);
      AlphaBetaAgreesWithMinimax(b.Model(), depth, -99999999, 99999999);
    }
    if useAlphaBeta {
      var inf := 99999999;
      var minInf := -inf;
      r := AlphaBetaSearch(b, depth, minInf, inf);
    } else {
      r := MinimaxSearch(b, depth);
    }
  }

  /** minimax(chessboard, depth). */
  method MinimaxSearch(b: ChessBoard, depth: int) returns (r: Outcome<(int, string)>)
    requires b.Valid() && depth >= 1
    ensures r == Minimax(b.Model(), depth)
  {
    var d := depth + 1;
    var moves := b.LegalMoves();
    if |moves| == 0 {
      return Failure(NoRootMove);
    }
    r := RootSearch(b, moves, d);
  }

  /** The for-loop of minimax: the first move whose value improves strictly on the best so far. */
  method RootSearch(b: ChessBoard, moves: seq<string>, d: int) returns (r: Outcome<(int, string)>)
    requires b.Valid() && AllMoveStrings(moves) && |moves| > 0 && d >= 2
    ensures r == RootLoop(b.Model(), moves, d, Worst(b.turn), moves[0])
  {
    var bestMove := moves[0];
    var bestScore := if b.turn == Black then 9999999 else -9999999;
    assert moves[0..] == moves;
    for k := 0 to |moves|
      invariant RootLoop(b.Model(), moves[k..], d, bestScore, bestMove) == RootLoop(b.Model(), moves, d, Worst(b.turn), moves[0])
    {
      assert moves[k..][0] == moves[k] && moves[k..][1..] == moves[k + 1..];
      var score := ChildValueSearch(b, moves[k], d);
      if score.Failure? {
        return Failure(score.error);
      }
      if Better(b.turn, score.value, bestScore) {
        bestMove := moves[k];
        bestScore := score.value;
      }
    }
    return Success((bestScore, bestMove));
  }

  /**
   * The body of minimax's loop: the board after m, valued by max_value
   * when Black is to move at the root and by min_value when White is.
   */
  method ChildValueSearch(b: ChessBoard, m: string, d: int) returns (r: Outcome<int>)
    requires b.Valid() && IsMoveString(m) && d >= 2
    ensures r == ChildValue(b.Model(), m, d)
  {
    var newBoard := b.MakeMove(m);
    if b.turn == Black {
      r := MaxValueSearch(newBoard, d);
    } else {
      r := MinValueSearch(newBoard, d);
    }
  }

  /** min_value(chessboard, depth). */
  method MinValueSearch(b: ChessBoard, depth: int) returns (r: Outcome<int>)
    requires b.Valid() && depth >= 2
    ensures r == MinValue(b.Model(), depth)
    decreases depth, 1
  {
    var d := depth - 1;
    var dead := b.IsKingDead(b.turn);
    if dead {
      var score := EvaluateBoard(b, d);
      return Success(score);
    }
    var moves := b.LegalMoves();
    if d == 1 {
      r := LeastScore(b, moves, d);
      return;
    }
    r := MinOverMoves(b, moves, d);
  }

  /** The for-loop of min_value: the least max_value over the children, from 9999999. */
  method MinOverMoves(b: ChessBoard, moves: seq<string>, d: int) returns (r: Outcome<int>)
    requires b.Valid() && AllMoveStrings(moves) && d >= 2
    ensures r == MinLoop(b.Model(), moves, d, 9999999)
    decreases d + 1, 0
  {
    var best := 9999999;
    assert moves[0..] == moves;
    for k := 0 to |moves|
      invariant MinLoop(b.Model(), moves[k..], d, best) == MinLoop(b.Model(), moves, d, 9999999)
    {
      assert moves[k..][0] == moves[k] && moves[k..][1..] == moves[k + 1..];
      var newBoard := b.MakeMove(moves[k]);
      var value := MaxValueSearch(newBoard, d);
      if value.Failure? {
        return Failure(value.error);
      }
      if value.value < best {
        best := value.value;
      }
    }
    return Success(best);
  }

  /** max_value(chessboard, depth); at d == 1 it returns the minimum, as written. */
  method MaxValueSearch(b: ChessBoard, depth: int) returns (r: Outcome<int>)
    requires b.Valid() && depth >= 2
    ensures r == MaxValue(b.Model(), depth)
    decreases depth, 1
  {
    var d := depth - 1;
    var dead := b.IsKingDead(b.turn);
    if dead {
      var score := EvaluateBoard(b, d);
      return Success(score);
    }
    var moves := b.LegalMoves();
    if d == 1 {
      r := LeastScore(b, moves, d);
      return;
    }
    r := MaxOverMoves(b, moves, d);
  }

  /** The for-loop of max_value: the greatest min_value over the children, from -9999999. */
  method MaxOverMoves(b: ChessBoard, moves: seq<string>, d: int) returns (r: Outcome<int>)
    requires b.Valid() && AllMoveStrings(moves) && d >= 2
    ensures r == MaxLoop(b.Model(), moves, d, -9999999)
    decreases d + 1, 0
  {
    var best := -9999999;
    assert moves[0..] == moves;
    for k := 0 to |moves|
      invariant MaxLoop(b.Model(), moves[k..], d, best) == MaxLoop(b.Model(), moves, d, -9999999)
    {
      assert moves[k..][0] == moves[k] && moves[k..][1..] == moves[k + 1..];
      var newBoard := b.MakeMove(moves[k]);
      var value := MinValueSearch(newBoard, d);
      if value.Failure? {
        return Failure(value.error);
      }
      if value.value > best {
        best := value.value;
      }
    }
    return Success(best);
  }

  /** min_value_ab(chessboard, depth, alpha, beta). */
  method MinValueABSearch(b: ChessBoard, depth: int, alpha: int, beta: int) returns (r: Outcome<int>)
    requires b.Valid() && depth >= 2
    ensures r == MinValueAB(b.Model(), depth, alpha, beta)
    decreases depth, 1
  {
    var d := depth - 1;
    var dead := b.IsKingDead(b.turn);
    if dead {
      var score := EvaluateBoard(b, d);
      return Success(score);
    }
    var moves := b.LegalMoves();
    if d == 1 {
      r := LeastScore(b, moves, d);
      return;
    }
    r := MinOverMovesAB(b, moves, d, alpha, beta);
  }

  /** The for-loop of min_value_ab: beta narrows to the least value seen, and a value <= alpha is returned at once. */
  method MinOverMovesAB(b: ChessBoard, moves: seq<string>, d: int, alpha: int, beta: int) returns (r: Outcome<int>)
    requires b.Valid() && AllMoveStrings(moves) && d >= 2
    ensures r == MinLoopAB(b.Model(), moves, d, alpha, beta, 9999999)
    decreases d + 1, 0
  {
    var best := 9999999;
    var beta' := beta;
    assert moves[0..] == moves;
    for k := 0 to |moves|
      invariant MinLoopAB(b.Model(), moves[k..], d, alpha, beta', best) == MinLoopAB(b.Model(), moves, d, alpha, beta, 9999999)
    {
      assert moves[k..][0] == moves[k] && moves[k..][1..] == moves[k + 1..];
      var newBoard := b.MakeMove(moves[k]);
      var value := MaxValueABSearch(newBoard, d, alpha, beta');
      if value.Failure? {
        return Failure(value.error);
      }
      if value.value < best {
        best := value.value;
      }
      if value.value <= alpha {
        return Success(value.value);
      }
      beta' := if beta' <= value.value then beta' else value.value;
    }
    return Success(best);
  }

  /** max_value_ab(chessboard, depth, alpha, beta); at d == 1 it returns the minimum, as written. */
  method MaxValueABSearch(b: ChessBoard, depth: int, alpha: int, beta: int) returns (r: Outcome<int>)
    requires b.Valid() && depth >= 2
    ensures r == MaxValueAB(b.Model(), depth, alpha, beta)
    decreases depth, 1
  {
    var d := depth - 1;
    var dead := b.IsKingDead(b.turn);
    if dead {
      var score := EvaluateBoard(b, d);
      return Success(score);
    }
    var moves := b.LegalMoves();
    if d == 1 {
      r := LeastScore(b, moves, d);
      return;
    }
    r := MaxOverMovesAB(b, moves, d, alpha, beta);
  }

  /** The for-loop of max_value_ab: alpha widens to the greatest value seen, and a value >= beta is returned at once. */
  method MaxOverMovesAB(b: ChessBoard, moves: seq<string>, d: int, alpha: int, beta: int) returns (r: Outcome<int>)
    requires b.Valid() && AllMoveStrings(moves) && d >= 2
    ensures r == MaxLoopAB(b.Model(), moves, d, alpha, beta, -9999999)
    decreases d + 1, 0
  {
    var best := -9999999;
    var alpha' := alpha;
    assert moves[0..] == moves;
    for k := 0 to |moves|
      invariant MaxLoopAB(b.Model(), moves[k..], d, alpha', beta, best) == MaxLoopAB(b.Model(), moves, d, alpha, beta, -9999999)
    {
      assert moves[k..][0] == moves[k] && moves[k..][1..] == moves[k + 1..];
      var newBoard := b.MakeMove(moves[k]);
      var value := MinValueABSearch(newBoard, d, alpha', beta);
      if value.Failure? {
        return Failure(value.error);
      }
      if value.value > best {
        best := value.value;
      }
      if value.value >= beta {
        return Success(value.value);
      }
      alpha' := if alpha' >= value.value then alpha' else value.value;
    }
    return Success(best);
  }

  /** min(scores(chessboard, possible_moves, depth)), the value of every node at the horizon. */
  method LeastScore(b: ChessBoard, moves: seq<string>, depth: int) returns (r: Outcome<int>)
    requires b.Valid() && AllMoveStrings(moves)
    ensures r == MinOf(Scores(b.Model(), moves, depth))
  {
    var scores := ScoresOf(b, moves, depth);
    r := MinOf(scores);
  }

  /** scores(chessboard, possible_moves, depth): the evaluation after each move, in order. */
  method ScoresOf(b: ChessBoard, moves: seq<string>, depth: int) returns (scores: seq<int>)
    requires b.Valid() && AllMoveStrings(moves)
    ensures scores == Scores(b.Model(), moves, depth)
  {
    scores := [];
    for k := 0 to |moves|
      invariant AllMoveStrings(moves[..k])
      invariant scores == Scores(b.Model(), moves[..k], depth)
    {
      assert moves[..k + 1][..k] == moves[..k];
      assert moves[..k + 1][k] == moves[k];
      var newBoard := b.MakeMove(moves[k]);
      var score := EvaluateBoard(newBoard, depth);
      scores := scores + [score];
    }
    assert moves[..|moves|] == moves;
  }

  /**
   * alphabeta(chessboard, depth, alpha, beta): alpha and beta are reset
   * to -9999999 and 9999999 and never narrowed at the root.
   */
  method AlphaBetaSearch(b: ChessBoard, depth: int, alpha: int, beta: int) returns (r: Outcome<(int, string)>)
    requires b.Valid() && depth >= 1
    ensures r == AlphaBeta(b.Model(), depth, alpha, beta)
  {
    var d := depth + 1;
    var moves := b.LegalMoves();
    if |moves| == 0 {
      return Failure(NoRootMove);
    }
    r := RootSearchAB(b, moves, d);
  }

  /** The for-loop of alphabeta, every child searched with the window (-9999999, 9999999). */
  method RootSearchAB(b: ChessBoard, moves: seq<string>, d: int) returns (r: Outcome<(int, string)>)
    requires b.Valid() && AllMoveStrings(moves) && |moves| > 0 && d >= 2
    ensures r == RootLoopAB(b.Model(), moves, d, Worst(b.turn), moves[0])
  {
    var bestMove := moves[0];
    var bestScore := if b.turn == Black then 9999999 else -9999999;
    var alpha, beta := -9999999, 9999999;
    assert moves[0..] == moves;
    for k := 0 to |moves|
      invariant RootLoopAB(b.Model(), moves[k..], d, bestScore, bestMove) == RootLoopAB(b.Model(), moves, d, Worst(b.turn), moves[0])
    {
      assert moves[k..][0] == moves[k] && moves[k..][1..] == moves[k + 1..];
      var score := ChildValueABSearch(b, moves[k], d, alpha, beta);
      if score.Failure? {
        return Failure(score.error);
      }
      if Better(b.turn, score.value, bestScore) {
        bestMove := moves[k];
        bestScore := score.value;
      }
    }
    return Success((bestScore, bestMove));
  }

  /** The body of alphabeta's loop, with the window alpha, beta it was given. */
  method ChildValueABSearch(b: ChessBoard, m: string, d: int, alpha: int, beta: int) returns (r: Outcome<int>)
    requires b.Valid() && IsMoveString(m) && d >= 2
    requires alpha == -9999999 && beta == 9999999
    ensures r == ChildValueAB(b.Model(), m, d)
  {
    var newBoard := b.MakeMove(m);
    if b.turn == Black {
      r := MaxValueABSearch(newBoard, d, alpha, beta);
    } else {
      r := MinValueABSearch(newBoard, d, alpha, beta);
    }
  }

  /** evaluate_board(chessboard, depth_left): get_weight(depth_left) times White's count minus Black's. */
  method EvaluateBoard(b: ChessBoard, depthLeft: int) returns (score: int)
    requires b.Valid()
    ensures score == Evaluate(b.Model(), depthLeft)
  {
    var whiteScore := CountPiecesOf(b, White);
    var blackScore := CountPiecesOf(b, Black);
    var weight := GetWeight(depthLeft);
    score := weight * (whiteScore - blackScore);
  }

  /** count_pieces(chessboard, side): the summed get_score of the pieces of `side`, scanned in x, y order. */
  method CountPiecesOf(b: ChessBoard, side: Side) returns (score: int)
    requires b.Valid()
    ensures score == CountPieces(b.Model(), side)
  {
    score := 0;
    for i := 0 to 8
      invariant score == CountUpTo(b.Model(), side, 8 * i)
    {
      score := CountRow(b, side, i, score);
    }
  }

  /** The inner loop of count_pieces over the squares (i, 0) .. (i, 7), adding to the total so far. */
  method CountRow(b: ChessBoard, side: Side, i: int, before: int) returns (score: int)
    requires b.Valid() && 0 <= i < 8 && before == CountUpTo(b.Model(), side, 8 * i)
    ensures score == CountUpTo(b.Model(), side, 8 * i + 8)
  {
    score := before;
    for j := 0 to 8
      invariant score == CountUpTo(b.Model(), side, 8 * i + j)
    {
      assert ScanSquare(8 * i + j) == Square(i, j);
      var piece := b.GetBoardPiece(Square(i, j));
      if piece.Some? && piece.value.side == side {
        score := score + GetScore(piece.value.material);
      }
    }
  }
}
