/**
 * The ChessBoard class of chessgame.py: a turn and an 8x8 matrix that
 * its methods read and update in place.  Each method is proved against
 * the functions of Board, BoardText, Rules and MoveGen on Model(), the
 * board's value.
 */
module Chess {
  import opened Wrappers
  import opened Notation
  import opened Board
  import opened BoardText
  import opened Rules
  import opened MoveGen

  class ChessBoard {
    var turn: Side
    /** board_matrix[y][x]; the empty sequence stands for the None of a board not yet loaded. */
    var matrix: Grid

    ghost predicate Valid()
      reads this
    {
      IsGrid(matrix)
    }

    function Model(): (p: Position)
      reads this
      requires Valid()
      ensures Board.Valid(p)
    {
      Position(turn, matrix)
    }

    /** __init__: the turn is set and there is no matrix yet. */
    constructor(turn: Side)
      ensures this.turn == turn && matrix == []
    {
      this.turn := turn;
      matrix := [];
    }

    method SetBoardMatrix(m: Grid)
      modifies this
      ensures matrix == m && turn == old(turn)
    {
      matrix := m;
    }

    /** get_boardpiece((x, y)): row y, column x. */
    function GetBoardPiece(s: Square): (r: Option<Piece>)
      reads this
      requires Valid() && OnBoard(s)
      ensures r == PieceAt(Model(), s)
    {
      matrix[s.y][s.x]
    }

    /** set_boardpiece((x, y), piece): only that square changes. */
    method SetBoardPiece(s: Square, piece: Option<Piece>)
      requires Valid() && OnBoard(s)
      modifies this
      ensures Valid() && Model() == SetPiece(old(Model()), s, piece)
    {
      matrix := matrix[s.y := matrix[s.y][s.x := piece]];
    }

    /**
     * load_from_input(input_str): the matrix is reset to empty and filled
     * character by character.  `crashed` reports the IndexError raised by a
     * piece letter past the eighth column; the board is then left as far as
     * it had been read.
     */
    method LoadFromInput(input: string) returns (crashed: bool)
      modifies this
      ensures Valid()
      ensures Model() == Load(input, old(turn)).board
      ensures crashed <==> Load(input, old(turn)).phase == Crashed
    {
      ghost var t0 := turn;
      matrix := EmptyGrid();
      var x, y := 0, 0;
      var i := 0;
      assert input[0..] == input;
      while i < |input|
        invariant 0 <= i <= |input|
        invariant Valid() && 0 <= x && 0 <= y <= 8
        invariant Run(ParseState(x, y, Model(), Reading), input[i..]) == Load(input, t0)
        decreases |input| - i
      {
        var c := input[i];
        assert input[i..][0] == c && input[i..][1..] == input[i + 1..];
        if y == 8 {
          if c == 'W' {
            turn := White;
          } else if c == 'B' {
            turn := Black;
          }
          return false;
        }
        if c == '\r' {
          i := i + 1;
          continue;
        }
        if c == '.' {
          x := x + 1;
          i := i + 1;
          continue;
        }
        if c == '\n' {
          x := 0;
          y := y + 1;
          i := i + 1;
          continue;
        }
        var side := if IsUpper(c) then White else Black;
        var material := Lower(c);
        if x >= 8 {
          return true;
        }
        SetBoardPiece(Square(x, y), Some(Piece(side, material)));
        x := x + 1;
        i := i + 1;
      }
      return false;
    }

    /**
     * make_move(move_str): a new board with the other side to move, on a
     * copy of the matrix with the move carried out; this board is unchanged.
     */
    method MakeMove(m: string) returns (nb: ChessBoard)
      requires Valid() && IsMoveString(m)
      ensures fresh(nb) && nb.Valid()
      ensures nb.Model() == Apply(Model(), m)
    {
      var start := ToCoordinate(m[0..2]);
      assert m[2..4][0] == m[2..][0] && m[2..4][1] == m[2..][1];
      var end := ToCoordinate(m[2..4]);
      var t := if turn == White then Black else White;
      var newMatrix := matrix;
      nb := new ChessBoard(t);
      nb.SetBoardMatrix(newMatrix);
      var piece := nb.GetBoardPiece(start);
      nb.SetBoardPiece(end, piece);
      nb.SetBoardPiece(start, None);
    }

    /** is_king_dead(side): no King of `side` is found by the double scan. */
    method IsKingDead(side: Side) returns (dead: bool)
      requires Valid()
      ensures dead == KingDead(Model(), side)
    {
      var seenKing := false;
      for x := 0 to 8
        invariant seenKing <==> exists x', y' | 0 <= x' < x && 0 <= y' < 8 ::
                                  PieceAt(Model(), Square(x', y')) == Some(Piece(side, King))
      {
        for y := 0 to 8
          invariant seenKing <==> exists x', y' | 0 <= x' < 8 && 0 <= y' < 8 && (x' < x || (x' == x && y' < y)) ::
                                    PieceAt(Model(), Square(x', y')) == Some(Piece(side, King))
        {
          var piece := GetBoardPiece(Square(x, y));
          if piece.Some? && piece.value.side == side && piece.value.material == King {
            seenKing := true;
          }
        }
      }
      return !seenKing;
    }

    /** legal_moves(): scan the origins in x, y order and keep each legal candidate of the side to move. */
    method LegalMoves() returns (moves: seq<string>)
      requires Valid()
      ensures moves == MoveGen.LegalMoves(Model())
    {
      moves := [];
      for x := 0 to 8
        invariant moves == LegalUpTo(Model(), 8 * x)
      {
        moves := LegalMovesOfRow(x, moves);
      }
    }

    /** The inner loop of legal_moves over the squares (x, 0) .. (x, 7), extending the moves found so far. */
    method LegalMovesOfRow(x: int, before: seq<string>) returns (moves: seq<string>)
      requires Valid() && 0 <= x < 8 && before == LegalUpTo(Model(), 8 * x)
      ensures moves == LegalUpTo(Model(), 8 * x + 8)
    {
      moves := before;
      for y := 0 to 8
        invariant moves == LegalUpTo(Model(), 8 * x + y)
      {
        var found := OriginMovesAt(Square(x, y));
        LegalUpToNext(Model(), x, y);
        moves := moves + found;
      }
    }

    /** One visit of legal_moves' outer loop body: the moves from s if it holds a piece of the side to move. */
    method OriginMovesAt(s: Square) returns (found: seq<string>)
      requires Valid() && OnBoard(s)
      ensures found == OriginMoves(Model(), s)
    {
      var piece := GetBoardPiece(s);
      if piece.Some? && piece.value.side == turn {
        found := LegalMovesFrom(s);
      } else {
        found := [];
      }
    }

    /** The inner loop of legal_moves: the candidates of all_moves(s) that is_legal_move accepts, in order. */
    method LegalMovesFrom(s: Square) returns (moves: seq<string>)
      requires Valid() && OnBoard(s) && PieceAt(Model(), s).Some?
      ensures moves == FilterLegal(Model(), Candidates(s))
    {
      var all := AllMoves(s);
      CandidatesFromOccupied(Model(), s);
      PrefixesFromOccupied(Model(), all);
      moves := [];
      for k := 0 to |all|
        invariant moves == FilterLegal(Model(), all[..k])
      {
        FilterLegalNext(Model(), all, k);
        var legal := IsLegalMove(all[k]);
        if legal {
          moves := moves + [all[k]];
        }
      }
      assert all[..|all|] == all;
    }

    /** all_moves(coordinates): the 64 moves from `from` to every square, in scan order. */
    method AllMoves(from: Square) returns (moves: seq<string>)
      requires OnBoard(from)
      ensures moves == Candidates(from)
      ensures |moves| == 64
      ensures forall k | 0 <= k < 64 :: IsMoveString(moves[k]) && Start(moves[k]) == from && End(moves[k]) == ScanSquare(k)
    {
      moves := [];
      for i := 0 to 8
        invariant |moves| == 8 * i
        invariant forall k | 0 <= k < |moves| :: moves[k] == ToMove(from, ScanSquare(k))
      {
        for j := 0 to 8
          invariant |moves| == 8 * i + j
          invariant forall k | 0 <= k < |moves| :: moves[k] == ToMove(from, ScanSquare(k))
        {
          assert ScanSquare(8 * i + j) == Square(i, j);
          moves := moves + [ToMove(from, Square(i, j))];
        }
      }
    }

    /** is_legal_move(move): the four tests in order, the path walked only when the first three pass. */
    method IsLegalMove(m: string) returns (legal: bool)
      requires Valid() && IsMoveString(m) && PieceAt(Model(), Start(m)).Some?
      ensures legal == Rules.IsLegalMove(Model(), m)
    {
      var start := ToCoordinate(m[..2]);
      var end := ToCoordinate(m[2..]);
      if OutsideBoard(start, end) {
        return false;
      }
      if SpotOccupied(Model(), start, end) {
        return false;
      }
      if PieceRestriction(Model(), start, end) {
        return false;
      }
      var piece := GetBoardPiece(start).value;
      if Slides(piece) {
        ShapeWalkOnBoard(piece, start, end, PieceAt(Model(), end).Some?);
      }
      var obstructed := PathObstructed(start, end);
      return !obstructed;
    }

    /** path_obstructed(start, end): Pawns and Kings pass; others walk one of three directions. */
    method PathObstructed(start: Square, end: Square) returns (r: bool)
      requires Valid() && OnBoard(start) && OnBoard(end) && PieceAt(Model(), start).Some?
      requires Slides(PieceAt(Model(), start).value) ==> WalkOnBoard(start, end, WalkDirection(start, end))
      ensures r == Rules.PathObstructed(Model(), start, end)
    {
      var horizontal := Abs(start.x - end.x);
      var vertical := Abs(start.y - end.y);
      var piece := GetBoardPiece(start).value;
      if piece.material == Pawn {
        return false;
      }
      if piece.material == King {
        return false;
      }
      if horizontal == vertical {
        r := CheckDiagonal(start, end);
      } else if horizontal != 0 {
        r := CheckHorizontal(start, end);
      } else {
        r := CheckVertical(start, end);
      }
    }

    /** check_horizontal: some square strictly between the two columns, on the start row, is occupied. */
    method CheckHorizontal(start: Square, end: Square) returns (r: bool)
      requires Valid() && WalkOnBoard(start, end, Horizontal)
      ensures r == Obstructed(Model(), start, end, Horizontal)
    {
      var moveNum := start.x - end.x;
      var i, high := LoopLow(moveNum), LoopHigh(moveNum);
      while i < high
        invariant LoopLow(moveNum) <= i && (i == LoopLow(moveNum) || i <= high)
        invariant forall k | LoopLow(moveNum) <= k < i :: PieceAt(Model(), WalkSquare(start, Horizontal, k)).None?
        decreases high - i
      {
        assert WalkSquare(start, Horizontal, i) == Square(start.x + i, start.y);
        if GetBoardPiece(Square(start.x + i, start.y)).Some? {
          return true;
        }
        i := i + 1;
      }
      return false;
    }

    /** check_vertical: some square strictly between the two rows, on the start column, is occupied. */
    method CheckVertical(start: Square, end: Square) returns (r: bool)
      requires Valid() && WalkOnBoard(start, end, Vertical)
      ensures r == Obstructed(Model(), start, end, Vertical)
    {
      var moveNum := start.y - end.y;
      var i, high := LoopLow(moveNum), LoopHigh(moveNum);
      while i < high
        invariant LoopLow(moveNum) <= i && (i == LoopLow(moveNum) || i <= high)
        invariant forall k | LoopLow(moveNum) <= k < i :: PieceAt(Model(), WalkSquare(start, Vertical, k)).None?
        decreases high - i
      {
        assert WalkSquare(start, Vertical, i) == Square(start.x, start.y + i);
        if GetBoardPiece(Square(start.x, start.y + i)).Some? {
          return true;
        }
        i := i + 1;
      }
      return false;
    }

    /** check_diagonal: walks (+i, +i) from start for i strictly between 0 and end.x - start.x. */
    method CheckDiagonal(start: Square, end: Square) returns (r: bool)
      requires Valid() && WalkOnBoard(start, end, Diagonal)
      ensures r == Obstructed(Model(), start, end, Diagonal)
    {
      var moveNum := start.x - end.x;
      var i, high := LoopLow(moveNum), LoopHigh(moveNum);
      while i < high
        invariant LoopLow(moveNum) <= i && (i == LoopLow(moveNum) || i <= high)
        invariant forall k | LoopLow(moveNum) <= k < i :: PieceAt(Model(), WalkSquare(start, Diagonal, k)).None?
        decreases high - i
      {
        assert WalkSquare(start, Diagonal, i) == Square(start.x + i, start.y + i);
        if GetBoardPiece(Square(start.x + i, start.y + i)).Some? {
          return true;
        }
        i := i + 1;
      }
      return false;
    }
  }

  lemma LegalUpToNext(p: Position, x: int, y: int)
    requires Board.Valid(p) && 0 <= x < 8 && 0 <= y < 8
    ensures LegalUpTo(p, 8 * x + y + 1) == LegalUpTo(p, 8 * x + y) + OriginMoves(p, Square(x, y))
  {
    assert ScanSquare(8 * x + y) == Square(x, y);
  }

  lemma PrefixesFromOccupied(p: Position, ms: seq<string>)
    requires Board.Valid(p) && FromOccupied(p, ms)
    ensures forall k | 0 <= k <= |ms| :: FromOccupied(p, ms[..k])
  {
    forall k, m | 0 <= k <= |ms| && m in ms[..k]
      ensures m in ms
    {
    }
  }

  lemma FilterLegalNext(p: Position, ms: seq<string>, k: int)
    requires Board.Valid(p) && FromOccupied(p, ms) && 0 <= k < |ms|
    ensures FromOccupied(p, ms[..k]) && FromOccupied(p, ms[..k + 1])
    ensures FilterLegal(p, ms[..k + 1]) == FilterLegal(p, ms[..k]) + (if IsLegalMove(p, ms[k]) then [ms[k]] else [])
  {
    PrefixesFromOccupied(p, ms);
    assert ms[..k + 1][..k] == ms[..k];
  }

  lemma CandidatesFromOccupied(p: Position, s: Square)
    requires Board.Valid(p) && OnBoard(s) && PieceAt(p, s).Some?
    ensures FromOccupied(p, Candidates(s))
  {
    var c := Candidates(s);
    forall m | m in c
      ensures IsMoveString(m) && PieceAt(p, Start(m)).Some?
    {
      var k :| 0 <= k < 64 && c[k] == m;
    }
  }
}
