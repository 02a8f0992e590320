/**
 * The material evaluation of ChessComputer: get_score, get_weight,
 * count_pieces and evaluate_board.
 */
module Evaluation {
  import opened Wrappers
  import opened Notation
  import opened Board

  /** The largest value get_score gives (Kings and every unlisted material). */
  const MaxPieceScore: int := 150

  /** get_score: Pawn 1, Rook 10, Bishop 10, Queen 50, anything else 150. */
  function GetScore(material: char): (r: int)
    ensures 1 <= r <= MaxPieceScore
    ensures r == 1 <==> material == Pawn
    ensures r == 10 <==> material == Rook || material == Bishop
    ensures r == 50 <==> material == Queen
    ensures r == MaxPieceScore <==> material !in {Pawn, Rook, Bishop, Queen}
  {
    var score := 0;
    if material == Pawn then score + 1
    else if material == Rook then score + 10
    else if material == Bishop then score + 10
    else if material == Queen then score + 50
    else score + 150
  }

  /** get_weight: the remaining depth itself. */
  function GetWeight(depthLeft: int): int {
    depthLeft
  }

  /** What the square s adds to the count of `side`. */
  function ValueAt(p: Position, side: Side, s: Square): (v: int)
    requires Valid(p) && OnBoard(s)
    ensures 0 <= v <= MaxPieceScore
    ensures v == 0 <==> !Owns(p, s, side)
  {
    if Owns(p, s, side) then GetScore(PieceAt(p, s).value.material) else 0
  }

  /** `score` in count_pieces after the first k squares of the double loop. */
  function CountUpTo(p: Position, side: Side, k: int): int
    requires Valid(p) && 0 <= k <= 64
  {
    if k == 0 then 0 else CountUpTo(p, side, k - 1) + ValueAt(p, side, ScanSquare(k - 1))
  }

  /** count_pieces(chessboard, side). */
  function CountPieces(p: Position, side: Side): int
    requires Valid(p)
  {
    CountUpTo(p, side, 64)
  }

  /** evaluate_board: the weighted material balance, positive when White is ahead. */
  function Evaluate(p: Position, depthLeft: int): int
    requires Valid(p)
  {
    GetWeight(depthLeft) * (CountPieces(p, White) - CountPieces(p, Black))
  }

  // ---- properties ------------------------------------------------------------

  lemma {:induction false} CountUpToBounds(p: Position, side: Side, k: int)
    requires Valid(p) && 0 <= k <= 64
    ensures 0 <= CountUpTo(p, side, k) <= MaxPieceScore * k
  {
    if k > 0 {
      CountUpToBounds(p, side, k - 1);
    }
  }

  /** A side's material lies between 0 and 64 * 150 = 9600. */
  lemma CountPiecesBounds(p: Position, side: Side)
    requires Valid(p)
    ensures 0 <= CountPieces(p, side) <= 64 * MaxPieceScore
  {
    CountUpToBounds(p, side, 64);
  }

  lemma MulBounds(d: int, a: int, bound: int)
    requires 0 <= d && -bound <= a <= bound
    ensures -bound * d <= d * a <= bound * d
  {
  }

  /** |evaluate_board(b, d)| <= 9600 * d for a non-negative depth d. */
  lemma EvaluateBounds(p: Position, d: int)
    requires Valid(p) && 0 <= d
    ensures -9600 * d <= Evaluate(p, d) <= 9600 * d
  {
    CountPiecesBounds(p, White);
    CountPiecesBounds(p, Black);
    MulBounds(d, CountPieces(p, White) - CountPieces(p, Black), 9600);
  }

  /** Changing only the square a changes a partial count by the change on a, once the scan has counted a. */
  lemma {:induction false} CountUpToDiff(p: Position, q: Position, side: Side, a: Square, k: int)
    requires Valid(p) && Valid(q) && OnBoard(a) && 0 <= k <= 64
    requires forall s | OnBoard(s) && s != a :: PieceAt(q, s) == PieceAt(p, s)
    ensures CountUpTo(q, side, k) - CountUpTo(p, side, k)
         == if 8 * a.x + a.y < k then ValueAt(q, side, a) - ValueAt(p, side, a) else 0
  {
    if k > 0 {
      CountUpToDiff(p, q, side, a, k - 1);
      var s := ScanSquare(k - 1);
      ScanIndexInjective(s, a);
      if s != a {
        assert PieceAt(q, s) == PieceAt(p, s);
      }
    }
  }

  lemma CountAfterMove(p: Position, m: string, side: Side)
    requires Valid(p) && IsMoveString(m) && Start(m) != End(m)
    ensures CountPieces(Apply(p, m), side) == CountPieces(p, side) - ValueAt(p, side, End(m))
  {
    var q := Apply(p, m);
    var r := SetPiece(p, End(m), PieceAt(q, End(m)));
    CountUpToDiff(p, r, side, End(m), 64);
    CountUpToDiff(r, q, side, Start(m), 64);
  }

  /** A move onto an empty square leaves evaluate_board unchanged. */
  lemma EvaluateQuietMove(p: Position, m: string, d: int)
    requires Valid(p) && IsMoveString(m) && Start(m) != End(m) && PieceAt(p, End(m)).None?
    ensures Evaluate(Apply(p, m), d) == Evaluate(p, d)
  {
    CountAfterMove(p, m, White);
    CountAfterMove(p, m, Black);
  }

  /** A capture moves evaluate_board by d times the captured piece's score, toward the capturing side. */
  lemma EvaluateCapture(p: Position, m: string, d: int)
    requires Valid(p) && IsMoveString(m) && Start(m) != End(m) && PieceAt(p, End(m)).Some?
    ensures Evaluate(Apply(p, m), d)
         == Evaluate(p, d) + (if PieceAt(p, End(m)).value.side == Black then d else -d)
                           * GetScore(PieceAt(p, End(m)).value.material)
  {
    CountAfterMove(p, m, White);
    CountAfterMove(p, m, Black);
    var captured := PieceAt(p, End(m)).value;
    var g := GetScore(captured.material);
    var w, b := CountPieces(p, White), CountPieces(p, Black);
    if captured.side == Black {
      MulAdd(d, w - b, g);
    } else {
      MulAdd(d, w - b, -g);
    }
  }

  lemma MulAdd(d: int, x: int, y: int)
    ensures d * (x + y) == d * x + d * y
  {
  }
}
