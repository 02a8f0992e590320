/**
 * The position of chessgame.py's ChessBoard as a value: whose turn it is
 * and the 8x8 board_matrix, indexed board_matrix[y][x].  Covers
 * get_boardpiece, set_boardpiece, make_move and is_king_dead.
 */
module Board {
  import opened Wrappers
  import opened Notation

  datatype Side = White | Black

  function Opponent(s: Side): Side {
    if s == White then Black else White
  }

  /** The materials of class Material.  A piece keeps whatever lower-cased character it was read from. */
  const Rook: char := 'r'
  const King: char := 'k'
  const Pawn: char := 'p'
  const Queen: char := 'q'
  const Bishop: char := 'b'

  datatype Piece = Piece(side: Side, material: char)

  type Grid = seq<seq<Option<Piece>>>

  predicate IsGrid(g: Grid) {
    |g| == 8 && forall r | 0 <= r < 8 :: |g[r]| == 8
  }

  datatype Position = Position(turn: Side, matrix: Grid)

  predicate Valid(p: Position) {
    IsGrid(p.matrix)
  }

  /** The grid load_from_input starts from: every square None. */
  function EmptyGrid(): (g: Grid)
    ensures IsGrid(g)
    ensures forall y, x | 0 <= y < 8 && 0 <= x < 8 :: g[y][x] == None
  {
    seq(8, _ => seq(8, _ => None))
  }

  /**
   * The square visited at step k of the double loops `for x in range(8):
   * for y in range(8)` of legal_moves, is_king_dead and count_pieces: (k / 8, k % 8).
   */
  function ScanSquare(k: int): (s: Square)
    requires 0 <= k < 64
    ensures OnBoard(s) && 8 * s.x + s.y == k
  {
    Square(k / 8, k % 8)
  }

  /** Distinct squares have distinct places in the x, y scan order. */
  lemma ScanIndexInjective(s: Square, t: Square)
    requires OnBoard(s) && OnBoard(t)
    ensures 8 * s.x + s.y == 8 * t.x + t.y <==> s == t
  {
  }

  /** get_boardpiece. */
  function PieceAt(p: Position, s: Square): Option<Piece>
    requires Valid(p) && OnBoard(s)
  {
    p.matrix[s.y][s.x]
  }

  /** A piece of `side` stands on s. */
  predicate Owns(p: Position, s: Square, side: Side)
    requires Valid(p) && OnBoard(s)
  {
    PieceAt(p, s).Some? && PieceAt(p, s).value.side == side
  }

  /** set_boardpiece: the square s now holds `piece`, every other square and the turn are unchanged. */
  function SetPiece(p: Position, s: Square, piece: Option<Piece>): (r: Position)
    requires Valid(p) && OnBoard(s)
    ensures Valid(r) && r.turn == p.turn
    ensures forall q | OnBoard(q) :: PieceAt(r, q) == if q == s then piece else PieceAt(p, q)
  {
    Position(p.turn, p.matrix[s.y := p.matrix[s.y][s.x := piece]])
  }

  /** Two positions that agree on the turn and on every square are equal. */
  lemma PositionExt(p: Position, q: Position)
    requires Valid(p) && Valid(q) && p.turn == q.turn
    requires forall s | OnBoard(s) :: PieceAt(p, s) == PieceAt(q, s)
    ensures p == q
  {
    forall y | 0 <= y < 8
      ensures p.matrix[y] == q.matrix[y]
    {
      forall x | 0 <= x < 8
        ensures p.matrix[y][x] == q.matrix[y][x]
      {
        assert PieceAt(p, Square(x, y)) == PieceAt(q, Square(x, y));
      }
    }
  }

  /**
   * make_move on a copy of the matrix: the turn flips, the origin is
   * emptied, the destination receives what stood on the origin (written
   * before the origin is cleared, so a null move erases the piece) and
   * every other square is unchanged.
   */
  function Apply(p: Position, m: string): (r: Position)
    requires Valid(p) && IsMoveString(m)
    ensures Valid(r) && r.turn == Opponent(p.turn)
    ensures forall q | OnBoard(q) ::
              PieceAt(r, q) == if q == Start(m) then None
                               else if q == End(m) then PieceAt(p, Start(m))
                               else PieceAt(p, q)
  {
    var start, end := Start(m), End(m);
    var copy := Position(Opponent(p.turn), p.matrix);
    var piece := PieceAt(copy, start);
    SetPiece(SetPiece(copy, end, piece), start, None)
  }

  /** The move that goes back: move[2:4] + move[0:2]. */
  function Reversed(m: string): (r: string)
    requires IsMoveString(m)
    ensures IsMoveString(r) && Start(r) == End(m) && End(r) == Start(m)
  {
    var r := m[2..4] + m[..2];
    assert r[..2] == m[2..4] && r[2..] == m[..2];
    assert m[2..4][..2] == m[2..][..2];
    r
  }

  /**
   * A move that captures nothing, undone by the reversed move, restores
   * the position exactly (turn included).
   */
  lemma UndoQuietMove(p: Position, m: string)
    requires Valid(p) && IsMoveString(m)
    requires Start(m) != End(m) && PieceAt(p, End(m)) == None
    ensures Apply(Apply(p, m), Reversed(m)) == p
  {
    var q := Apply(Apply(p, m), Reversed(m));
    forall s | OnBoard(s)
      ensures PieceAt(q, s) == PieceAt(p, s)
    {
    }
    PositionExt(q, p);
  }

  /** A capture cannot be undone: the captured piece is gone. */
  lemma CaptureIsNotUndone(p: Position, m: string)
    requires Valid(p) && IsMoveString(m)
    requires Start(m) != End(m) && PieceAt(p, End(m)).Some?
    ensures PieceAt(Apply(Apply(p, m), Reversed(m)), End(m)) == None
    ensures Apply(Apply(p, m), Reversed(m)) != p
  {
  }

  /** is_king_dead(side): no square holds a King of `side`. */
  predicate KingDead(p: Position, side: Side)
    requires Valid(p)
  {
    !exists x, y | 0 <= x < 8 && 0 <= y < 8 :: PieceAt(p, Square(x, y)) == Some(Piece(side, King))
  }
}
