/**
 * Move legality of ChessBoard: outside_board, spot_occupied,
 * piece_restriction, path_obstructed with its three check_* walks, and
 * their conjunction is_legal_move, as written in chessgame.py.
 */
module Rules {
  import opened Wrappers
  import opened Notation
  import opened Board

  function Abs(n: int): nat {
    if n < 0 then -n else n
  }

  /**
   * outside_board as written: each chained test `0 > a > 7` is false for
   * every integer, so the only move it rejects is the null move.
   */
  function OutsideBoard(start: Square, end: Square): (r: bool)
    ensures r <==> start == end
  {
    if 0 > start.x > 7 || 0 > start.y > 7 then true
    else if 0 > end.x > 7 || 0 > end.y > 7 then true
    else end == start
  }

  /**
   * spot_occupied: the destination holds a piece of the mover's own side.
   * The origin is only read when the destination is occupied.
   */
  function SpotOccupied(p: Position, start: Square, end: Square): (r: bool)
    requires Valid(p) && OnBoard(start) && OnBoard(end)
    requires PieceAt(p, end).None? || PieceAt(p, start).Some?
    ensures r <==> PieceAt(p, end).Some? && Owns(p, start, PieceAt(p, end).value.side)
  {
    var piece, pieceEnd := PieceAt(p, start), PieceAt(p, end);
    if pieceEnd.None? || pieceEnd.value.side != piece.value.side then false else true
  }

  /** The row a pawn of `side` must advance by. */
  function Forward(side: Side): int {
    if side == White then -1 else 1
  }

  /**
   * The movement pattern piece_restriction accepts, stated per material for
   * a displacement (dx, dy) = end - start.  Pawns step straight whatever
   * stands ahead and diagonally only onto an occupied square; Bishop and
   * Queen diagonals compare signed deltas; every material other than the
   * four listed moves like a King.
   */
  predicate ShapeAllowed(piece: Piece, dx: int, dy: int, destOccupied: bool) {
    if piece.material == Pawn then dy == Forward(piece.side) && (dx == 0 || (Abs(dx) == 1 && destOccupied))
    else if piece.material == Rook then dx == 0 || dy == 0
    else if piece.material == Queen then dx == 0 || dy == 0 || dx == dy
    else if piece.material == Bishop then dx == dy && dx != 0
    else Abs(dx) <= 1 && Abs(dy) <= 1
  }

  /**
   * piece_restriction.  The origin must be occupied: the source reads
   * piece.side before its None test.
   */
  function PieceRestriction(p: Position, start: Square, end: Square): (r: bool)
    requires Valid(p) && OnBoard(start) && OnBoard(end) && PieceAt(p, start).Some?
    ensures r <==> !(Owns(p, start, p.turn) &&
                     ShapeAllowed(PieceAt(p, start).value, end.x - start.x, end.y - start.y, PieceAt(p, end).Some?))
  {
    var piece := PieceAt(p, start).value;
    if p.turn != piece.side then true
    else if piece.material == Pawn && p.turn == White then
      if end.y - start.y == -1 then
        if Abs(start.x - end.x) == 1 then PieceAt(p, end).None?
        else if start.x == end.x then false
        else true
      else true
    else if piece.material == Pawn && p.turn == Black then
      if end.y - start.y == 1 then
        if Abs(start.x - end.x) == 1 then PieceAt(p, end).None?
        else if start.x == end.x then false
        else true
      else true
    else if piece.material == Rook then
      if start.x - end.x != 0 then start.y - end.y != 0
      else if start.y - end.y != 0 then start.x - end.x != 0  // never true here
      else false
    else if piece.material == Queen then
      var horizontal, vertical := start.x - end.x, start.y - end.y;
      horizontal != 0 && vertical != 0 && horizontal != vertical
    else if piece.material == Bishop then
      var horizontal, vertical := start.x - end.x, start.y - end.y;
      !(horizontal != 0 && vertical != 0 && horizontal == vertical)
    else
      Abs(start.x - end.x) > 1 || Abs(start.y - end.y) > 1
  }

  // ---- path_obstructed and the check_* walks ------------------------------

  /** Which of check_diagonal, check_horizontal, check_vertical path_obstructed calls. */
  datatype Direction = Diagonal | Horizontal | Vertical

  function WalkDirection(start: Square, end: Square): Direction {
    if Abs(start.x - end.x) == Abs(start.y - end.y) then Diagonal
    else if Abs(start.x - end.x) != 0 then Horizontal
    else Vertical
  }

  /** move_num of a check_* function: the signed start - end along its axis. */
  function MoveNum(start: Square, end: Square, dir: Direction): int {
    if dir == Vertical then start.y - end.y else start.x - end.x
  }

  /** The bounds of the loop range(...) of a check_* function. */
  function LoopLow(moveNum: int): int {
    if moveNum < 0 then 1 else -moveNum + 1
  }

  function LoopHigh(moveNum: int): int {
    if moveNum < 0 then Abs(moveNum) else 0
  }

  /** The square a check_* loop reads at step i; check_diagonal always walks (+i, +i). */
  function WalkSquare(start: Square, dir: Direction, i: int): Square {
    match dir
    case Diagonal => Square(start.x + i, start.y + i)
    case Horizontal => Square(start.x + i, start.y)
    case Vertical => Square(start.x, start.y + i)
  }

  /** Every square the walk reads is on the board (the source would index out of range otherwise). */
  predicate WalkOnBoard(start: Square, end: Square, dir: Direction) {
    var n := MoveNum(start, end, dir);
    forall i | LoopLow(n) <= i < LoopHigh(n) :: OnBoard(WalkSquare(start, dir, i))
  }

  /** What a check_* function returns: some square its loop reads is occupied. */
  predicate Obstructed(p: Position, start: Square, end: Square, dir: Direction)
    requires Valid(p) && WalkOnBoard(start, end, dir)
  {
    var n := MoveNum(start, end, dir);
    exists i | LoopLow(n) <= i < LoopHigh(n) :: PieceAt(p, WalkSquare(start, dir, i)).Some?
  }

  /** Pawns and Kings are never obstructed; every other material is walked. */
  predicate Slides(piece: Piece) {
    piece.material != Pawn && piece.material != King
  }

  function PathObstructed(p: Position, start: Square, end: Square): bool
    requires Valid(p) && OnBoard(start) && OnBoard(end) && PieceAt(p, start).Some?
    requires Slides(PieceAt(p, start).value) ==> WalkOnBoard(start, end, WalkDirection(start, end))
  {
    var piece := PieceAt(p, start).value;
    if piece.material == Pawn then false
    else if piece.material == King then false
    else Obstructed(p, start, end, WalkDirection(start, end))
  }

  /** b lies strictly between a and c. */
  predicate Strictly(a: int, b: int, c: int) {
    a < b < c || c < b < a
  }

  /** q lies strictly between start and end on their row, their column or their (+1, +1) diagonal. */
  predicate Between(start: Square, end: Square, q: Square) {
    || (q.y == start.y == end.y && Strictly(start.x, q.x, end.x))
    || (q.x == start.x == end.x && Strictly(start.y, q.y, end.y))
    || (end.x - start.x == end.y - start.y && q.x - start.x == q.y - start.y && Strictly(start.x, q.x, end.x))
  }

  /** Every square strictly between start and end is empty. */
  ghost predicate PathClear(p: Position, start: Square, end: Square)
    requires Valid(p)
  {
    forall q | OnBoard(q) && Between(start, end, q) :: PieceAt(p, q).None?
  }

  /** The loop range of a check_* function is "strictly between 0 and end - start". */
  lemma LoopRange(start: Square, end: Square, dir: Direction, i: int)
    ensures LoopLow(MoveNum(start, end, dir)) <= i < LoopHigh(MoveNum(start, end, dir))
        <==> Strictly(0, i, -MoveNum(start, end, dir))
  {
  }

  /** A shape piece_restriction accepts never makes a walk leave the board. */
  lemma ShapeWalkOnBoard(piece: Piece, start: Square, end: Square, destOccupied: bool)
    requires OnBoard(start) && OnBoard(end) && Slides(piece)
    requires ShapeAllowed(piece, end.x - start.x, end.y - start.y, destOccupied)
    ensures WalkOnBoard(start, end, WalkDirection(start, end))
  {
    var dir := WalkDirection(start, end);
    var n := MoveNum(start, end, dir);
    forall i | LoopLow(n) <= i < LoopHigh(n)
      ensures OnBoard(WalkSquare(start, dir, i))
    {
      LoopRange(start, end, dir, i);
    }
  }

  /**
   * For a sliding piece making an accepted shape, path_obstructed holds
   * exactly when some square strictly between start and end is occupied.
   */
  lemma PathObstructedMeaning(p: Position, start: Square, end: Square)
    requires Valid(p) && OnBoard(start) && OnBoard(end) && PieceAt(p, start).Some?
    requires Slides(PieceAt(p, start).value)
    requires ShapeAllowed(PieceAt(p, start).value, end.x - start.x, end.y - start.y, PieceAt(p, end).Some?)
    ensures WalkOnBoard(start, end, WalkDirection(start, end))
    ensures PathObstructed(p, start, end) <==> !PathClear(p, start, end)
  {
    ShapeWalkOnBoard(PieceAt(p, start).value, start, end, PieceAt(p, end).Some?);
    if PathObstructed(p, start, end) {
      ObstructionIsBetween(p, start, end);
    } else {
      UnobstructedIsClear(p, start, end);
    }
  }

  /** An occupied square read by the walk lies strictly between start and end. */
  lemma ObstructionIsBetween(p: Position, start: Square, end: Square)
    requires Valid(p) && OnBoard(start) && OnBoard(end) && PieceAt(p, start).Some?
    requires Slides(PieceAt(p, start).value) && WalkOnBoard(start, end, WalkDirection(start, end))
    requires ShapeAllowed(PieceAt(p, start).value, end.x - start.x, end.y - start.y, PieceAt(p, end).Some?)
    requires PathObstructed(p, start, end)
    ensures !PathClear(p, start, end)
  {
    var dir := WalkDirection(start, end);
    var n := MoveNum(start, end, dir);
    var i :| LoopLow(n) <= i < LoopHigh(n) && PieceAt(p, WalkSquare(start, dir, i)).Some?;
    LoopRange(start, end, dir, i);
    var q := WalkSquare(start, dir, i);
    assert Between(start, end, q);
  }

  /** When the walk reads only empty squares, every square strictly between start and end is empty. */
  lemma UnobstructedIsClear(p: Position, start: Square, end: Square)
    requires Valid(p) && OnBoard(start) && OnBoard(end) && PieceAt(p, start).Some?
    requires Slides(PieceAt(p, start).value) && WalkOnBoard(start, end, WalkDirection(start, end))
    requires ShapeAllowed(PieceAt(p, start).value, end.x - start.x, end.y - start.y, PieceAt(p, end).Some?)
    requires !PathObstructed(p, start, end)
    ensures PathClear(p, start, end)
  {
    var dir := WalkDirection(start, end);
    forall q | OnBoard(q) && Between(start, end, q)
      ensures PieceAt(p, q).None?
    {
      var i := if dir == Vertical then q.y - start.y else q.x - start.x;
      LoopRange(start, end, dir, i);
      assert WalkSquare(start, dir, i) == q;
    }
  }

  /** is_legal_move on two squares: the four tests in the order of the source, for an occupied origin. */
  function IsLegal(p: Position, start: Square, end: Square): bool
    requires Valid(p) && OnBoard(start) && OnBoard(end) && PieceAt(p, start).Some?
  {
    if OutsideBoard(start, end) then false
    else if SpotOccupied(p, start, end) then false
    else if PieceRestriction(p, start, end) then false
    else
      var piece := PieceAt(p, start).value;
      // Both branches are the same test; the first only adds the lemma that
      // discharges PathObstructed's precondition for sliding pieces.
      if Slides(piece) then
        ShapeWalkOnBoard(piece, start, end, PieceAt(p, end).Some?);
        !PathObstructed(p, start, end)
      else
        !PathObstructed(p, start, end)
  }

  /**
   * A legal move is a real move, does not land on a piece of the mover,
   * moves a piece of the side to move in an accepted shape and, for a
   * sliding piece, crosses only empty squares; and every such move is legal.
   */
  lemma IsLegalMeaning(p: Position, start: Square, end: Square)
    requires Valid(p) && OnBoard(start) && OnBoard(end) && PieceAt(p, start).Some?
    ensures IsLegal(p, start, end) <==>
      && start != end
      && !(PieceAt(p, end).Some? && PieceAt(p, end).value.side == PieceAt(p, start).value.side)
      && Owns(p, start, p.turn)
      && ShapeAllowed(PieceAt(p, start).value, end.x - start.x, end.y - start.y, PieceAt(p, end).Some?)
      && (Slides(PieceAt(p, start).value) ==> PathClear(p, start, end))
  {
    if !OutsideBoard(start, end) && !SpotOccupied(p, start, end) && !PieceRestriction(p, start, end)
       && Slides(PieceAt(p, start).value) {
      PathObstructedMeaning(p, start, end);
    }
  }

  /** is_legal_move(move): the move string is decoded with to_coordinate first. */
  function IsLegalMove(p: Position, m: string): bool
    requires Valid(p) && IsMoveString(m) && PieceAt(p, Start(m)).Some?
  {
    IsLegal(p, Start(m), End(m))
  }

  // ---- consequences of the rules as written --------------------------------

  /** No piece may move along the (+1, -1) diagonal more than one square: Bishops never do. */
  lemma BishopHasOneDiagonal(p: Position, start: Square, end: Square)
    requires Valid(p) && OnBoard(start) && OnBoard(end) && PieceAt(p, start).Some?
    requires PieceAt(p, start).value.material in {Bishop, Queen, Rook}
    requires end.x - start.x == -(end.y - start.y) != 0
    ensures !IsLegal(p, start, end)
  {
    IsLegalMeaning(p, start, end);
  }

  /**
   * A material outside the five listed kinds moves exactly like a King of
   * the same side.  path_obstructed walks it as a sliding piece, but the
   * only shapes piece_restriction accepts for it are single steps, which
   * have no square in between.
   */
  lemma UnknownMovesLikeKing(p: Position, start: Square, end: Square)
    requires Valid(p) && OnBoard(start) && OnBoard(end) && PieceAt(p, start).Some?
    requires PieceAt(p, start).value.material !in {Pawn, Rook, Queen, Bishop, King}
    ensures IsLegal(p, start, end)
        == IsLegal(SetPiece(p, start, Some(Piece(PieceAt(p, start).value.side, King))), start, end)
  {
    var k := SetPiece(p, start, Some(Piece(PieceAt(p, start).value.side, King)));
    IsLegalMeaning(p, start, end);
    IsLegalMeaning(k, start, end);
    assert PieceAt(k, end) == PieceAt(p, end) || end == start;
    if Abs(end.x - start.x) <= 1 && Abs(end.y - start.y) <= 1 {
      forall q | OnBoard(q) && Between(start, end, q)
        ensures false
      {
      }
    }
  }

  /** A pawn may step straight forward onto an enemy piece (the straight step ignores the destination). */
  lemma PawnCapturesStraight(p: Position, start: Square, end: Square)
    requires Valid(p) && OnBoard(start) && OnBoard(end)
    requires PieceAt(p, start) == Some(Piece(p.turn, Pawn))
    requires end.x == start.x && end.y - start.y == Forward(p.turn)
    requires PieceAt(p, end).Some? && PieceAt(p, end).value.side != p.turn
    ensures IsLegal(p, start, end)
  {
    IsLegalMeaning(p, start, end);
  }
}
