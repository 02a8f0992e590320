/**
 * Squares and the four-character move notation of chessgame.py
 * (to_coordinate, to_notation, to_move).  A square is (x, y) with
 * x counting files from 'a' and y counting ranks from rank 8, so
 * "c3" is (2, 5) and y = 0 is rank 8.
 */
module Notation {

  datatype Square = Square(x: int, y: int)

  predicate OnBoard(s: Square) {
    0 <= s.x < 8 && 0 <= s.y < 8
  }

  predicate IsDigit(c: char) {
    '0' <= c <= '9'
  }

  /**
   * to_coordinate: only the first two characters are read; int() of the
   * second one fails unless it is a decimal digit.
   */
  function ToCoordinate(n: string): (s: Square)
    requires |n| >= 2 && IsDigit(n[1])
    ensures OnBoard(s) <==> 'a' <= n[0] <= 'h' && '1' <= n[1] <= '8'
  {
    Square(n[0] as int - 'a' as int, 8 - (n[1] as int - '0' as int))
  }

  /** to_notation for an on-board square: a file letter and a rank digit. */
  function ToNotation(s: Square): (n: string)
    requires OnBoard(s)
    ensures |n| == 2 && 'a' <= n[0] <= 'h' && '1' <= n[1] <= '8'
    ensures ToCoordinate(n) == s
  {
    [('a' as int + s.x) as char, ('0' as int + (8 - s.y)) as char]
  }

  /** Decoding then encoding a well-formed square name gives it back. */
  lemma NotationRoundTrip(n: string)
    requires |n| == 2 && 'a' <= n[0] <= 'h' && '1' <= n[1] <= '8'
    ensures ToNotation(ToCoordinate(n)) == n
  {
    var m := ToNotation(ToCoordinate(n));
    assert m[0] == n[0] && m[1] == n[1];
  }

  /**
   * What is_legal_move and make_move demand of a move string: the squares
   * read by move[:2] and move[2:] decode and lie on the board.
   */
  predicate IsMoveString(m: string) {
    && |m| >= 4
    && IsDigit(m[1]) && IsDigit(m[3])
    && OnBoard(ToCoordinate(m[..2]))
    && OnBoard(ToCoordinate(m[2..]))
  }

  /** The origin square of a move string, to_coordinate(move[:2]). */
  function Start(m: string): Square
    requires IsMoveString(m)
  {
    ToCoordinate(m[..2])
  }

  /** The destination square of a move string, to_coordinate(move[2:]). */
  function End(m: string): Square
    requires IsMoveString(m)
  {
    ToCoordinate(m[2..])
  }

  /** to_move: both halves of the move decode back to the two squares. */
  function ToMove(from: Square, to: Square): (m: string)
    requires OnBoard(from) && OnBoard(to)
    ensures |m| == 4 && IsMoveString(m)
    ensures Start(m) == from && End(m) == to
  {
    var a, b := ToNotation(from), ToNotation(to);
    assert (a + b)[..2] == a && (a + b)[2..] == b;
    a + b
  }
}
