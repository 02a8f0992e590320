/**
 * The character-driven state machine of ChessBoard.load_from_input, as a
 * function over the input text, and what it computes for a well-formed
 * board text of eight rows of eight cells followed by a turn letter.
 */
module BoardText {
  import opened Wrappers
  import opened Notation
  import opened Board

  /** Reading characters, returned after the turn letter, or stopped by an IndexError. */
  datatype Phase = Reading | Done | Crashed

  /** The loop variables x and y and the board being filled. */
  datatype ParseState = ParseState(x: int, y: int, board: Position, phase: Phase)

  predicate Inv(st: ParseState) {
    Valid(st.board) && 0 <= st.x && 0 <= st.y <= 8
  }

  /** str.isupper on a single character (ASCII letters). */
  predicate IsUpper(c: char) {
    'A' <= c <= 'Z'
  }

  /** str.lower on a single character (ASCII letters). */
  function Lower(c: char): char {
    if IsUpper(c) then (c as int - 'A' as int + 'a' as int) as char else c
  }

  /** The piece a non-special character stands for: upper case is White, anything else Black. */
  function CharPiece(c: char): Piece {
    Piece(if IsUpper(c) then White else Black, Lower(c))
  }

  /** The turn after reading c as the first character past the eighth newline. */
  function TurnAfter(c: char, turn: Side): Side {
    if c == 'W' then White else if c == 'B' then Black else turn
  }

  /** One iteration of the for-loop of load_from_input. */
  function Step(st: ParseState, c: char): (r: ParseState)
    requires st.phase == Reading && Inv(st)
    ensures Inv(r)
  {
    if st.y == 8 then
      st.(board := st.board.(turn := TurnAfter(c, st.board.turn)), phase := Done)
    else if c == '\r' then st
    else if c == '.' then st.(x := st.x + 1)
    else if c == '\n' then st.(x := 0, y := st.y + 1)
    else if st.x < 8 then
      st.(board := SetPiece(st.board, Square(st.x, st.y), Some(CharPiece(c))), x := st.x + 1)
    else
      st.(phase := Crashed)  // board_matrix[y][x] with x >= 8 raises IndexError
  }

  /** The loop over the remaining characters, stopping at return or at an exception. */
  function Run(st: ParseState, s: string): (r: ParseState)
    requires Inv(st)
    ensures Inv(r)
    decreases |s|
  {
    if s == [] || st.phase != Reading then st else Run(Step(st, s[0]), s[1..])
  }

  function Init(turn: Side): ParseState {
    ParseState(0, 0, Position(turn, EmptyGrid()), Reading)
  }

  /** load_from_input(input) on a board whose turn was `turn`. */
  function Load(input: string, turn: Side): (r: ParseState)
    ensures Inv(r)
  {
    Run(Init(turn), input)
  }

  lemma {:induction false} RunAppend(st: ParseState, a: string, b: string)
    requires Inv(st)
    ensures Run(st, a + b) == Run(Run(st, a), b)
    decreases |a|
  {
    if a == [] {
      assert a + b == b;
    } else if st.phase == Reading {
      assert (a + b)[0] == a[0] && (a + b)[1..] == a[1..] + b;
      RunAppend(Step(st, a[0]), a[1..], b);
    }
  }

  // ---- well-formed board texts -------------------------------------------

  /** A cell character of a board row: '.' or a piece letter (anything but a line break). */
  predicate IsCellChar(c: char) {
    c != '\n' && c != '\r'
  }

  /** Eight rows of eight cell characters each. */
  predicate IsBoardRows(rows: seq<string>) {
    |rows| == 8 && forall y | 0 <= y < 8 :: |rows[y]| == 8 && forall x | 0 <= x < 8 :: IsCellChar(rows[y][x])
  }

  function CellOf(c: char): Option<Piece> {
    if c == '.' then None else Some(CharPiece(c))
  }

  /** The rows joined, each followed by a newline. */
  function Text(rows: seq<string>): string {
    if rows == [] then [] else Text(rows[..|rows| - 1]) + rows[|rows| - 1] + ['\n']
  }

  /** The grid after y full rows and k cells of row y have been read. */
  function PartialGrid(rows: seq<string>, y: int, k: int): (g: Grid)
    requires IsBoardRows(rows)
    ensures IsGrid(g)
  {
    seq(8, r requires 0 <= r < 8 =>
      seq(8, c requires 0 <= c < 8 =>
        if r < y || (r == y && c < k) then CellOf(rows[r][c]) else None))
  }

  /** The grid a board text describes: row y, column x holds CellOf(rows[y][x]). */
  function GridOf(rows: seq<string>): (g: Grid)
    requires IsBoardRows(rows)
    ensures IsGrid(g)
    ensures forall y, x | 0 <= y < 8 && 0 <= x < 8 :: g[y][x] == CellOf(rows[y][x])
  {
    PartialGrid(rows, 8, 0)
  }

  /** Reading k cells of row y from the start of that row places exactly those cells. */
  lemma {:induction false} ReadRowPrefix(rows: seq<string>, y: int, k: int, turn: Side)
    requires IsBoardRows(rows) && 0 <= y < 8 && 0 <= k <= 8
    ensures Run(ParseState(0, y, Position(turn, PartialGrid(rows, y, 0)), Reading), rows[y][..k])
         == ParseState(k, y, Position(turn, PartialGrid(rows, y, k)), Reading)
    decreases k
  {
    var st0 := ParseState(0, y, Position(turn, PartialGrid(rows, y, 0)), Reading);
    if k == 0 {
      assert rows[y][..0] == [];
    } else {
      ReadRowPrefix(rows, y, k - 1, turn);
      var c := rows[y][k - 1];
      assert rows[y][..k] == rows[y][..k - 1] + [c];
      RunAppend(st0, rows[y][..k - 1], [c]);
      var st := ParseState(k - 1, y, Position(turn, PartialGrid(rows, y, k - 1)), Reading);
      assert Run(st, [c]) == Step(st, c) by {
        assert [c][1..] == [];
      }
      ReadCell(rows, y, k, turn);
    }
  }

  /** Reading cell k - 1 of row y places it and moves x on to k. */
  lemma ReadCell(rows: seq<string>, y: int, k: int, turn: Side)
    requires IsBoardRows(rows) && 0 <= y < 8 && 1 <= k <= 8
    ensures Step(ParseState(k - 1, y, Position(turn, PartialGrid(rows, y, k - 1)), Reading), rows[y][k - 1])
         == ParseState(k, y, Position(turn, PartialGrid(rows, y, k)), Reading)
  {
    var st := ParseState(k - 1, y, Position(turn, PartialGrid(rows, y, k - 1)), Reading);
    var c := rows[y][k - 1];
    var after := Position(turn, PartialGrid(rows, y, k));
    if c == '.' {
      assert PartialGrid(rows, y, k) == PartialGrid(rows, y, k - 1) by {
        PositionExt(st.board, after);
      }
    } else {
      PositionExt(SetPiece(st.board, Square(k - 1, y), Some(CharPiece(c))), after);
    }
  }

  /** Reading the text of the first n rows leaves x = 0, y = n and those rows placed. */
  lemma {:induction false} ReadRows(rows: seq<string>, n: int, turn: Side)
    requires IsBoardRows(rows) && 0 <= n <= 8
    ensures Run(Init(turn), Text(rows[..n])) == ParseState(0, n, Position(turn, PartialGrid(rows, n, 0)), Reading)
  {
    if n == 0 {
      assert rows[..0] == [];
      var g := PartialGrid(rows, 0, 0);
      PositionExt(Position(turn, EmptyGrid()), Position(turn, g));
    } else {
      ReadRows(rows, n - 1, turn);
      var prefix := rows[..n];
      assert prefix[..|prefix| - 1] == rows[..n - 1];
      assert prefix[|prefix| - 1] == rows[n - 1];
      var before := Text(rows[..n - 1]);
      var row := rows[n - 1];
      assert Text(prefix) == before + row + ['\n'];
      RunAppend(Init(turn), before + row, ['\n']);
      RunAppend(Init(turn), before, row);
      ReadRowPrefix(rows, n - 1, 8, turn);
      assert row[..8] == row;
      var st := ParseState(8, n - 1, Position(turn, PartialGrid(rows, n - 1, 8)), Reading);
      assert Run(st, ['\n']) == Step(st, '\n') by {
        assert ['\n'][1..] == [];
      }
      PositionExt(Position(turn, PartialGrid(rows, n - 1, 8)), Position(turn, PartialGrid(rows, n, 0)));
    }
  }

  /**
   * load_from_input on eight rows of eight cells, then a character c,
   * then anything: every square holds the cell its row text gives it
   * (upper case White, other characters Black, material lower-cased,
   * '.' empty), c sets the turn only if it is 'W' or 'B', and the rest
   * of the input is never read.
   */
  lemma BoardTextLoads(rows: seq<string>, c: char, rest: string, turn: Side)
    requires IsBoardRows(rows)
    ensures Load(Text(rows) + [c] + rest, turn)
         == ParseState(0, 8, Position(TurnAfter(c, turn), GridOf(rows)), Done)
  {
    ReadRows(rows, 8, turn);
    assert rows[..8] == rows;
    RunAppend(Init(turn), Text(rows), [c] + rest);
    assert Text(rows) + [c] + rest == Text(rows) + ([c] + rest);
    var st := ParseState(0, 8, Position(turn, PartialGrid(rows, 8, 0)), Reading);
    assert ([c] + rest)[0] == c;
  }
  // ---- carriage returns ------------------------------------------------------

  /** A '\r' read before the eighth newline is skipped: removing it changes nothing. */
  lemma SkipCR(st: ParseState, a: string, b: string)
    requires Inv(st) && Run(st, a).phase == Reading && Run(st, a).y < 8
    ensures Run(st, a + ['\r'] + b) == Run(st, a + b)
  {
    RunAppend(st, a + ['\r'], b);
    RunAppend(st, a, ['\r']);
    RunAppend(st, a, b);
    assert ['\r'][1..] == [];
  }

  /** The rows joined, each followed by a carriage return and a newline. */
  function CrlfText(rows: seq<string>): string {
    if rows == [] then [] else CrlfText(rows[..|rows| - 1]) + rows[|rows| - 1] + ['\r', '\n']
  }

  /** Reading the CRLF text of the first n rows leaves x = 0, y = n and those rows placed. */
  lemma {:induction false} ReadCrlfRows(rows: seq<string>, n: int, turn: Side)
    requires IsBoardRows(rows) && 0 <= n <= 8
    ensures Run(Init(turn), CrlfText(rows[..n])) == ParseState(0, n, Position(turn, PartialGrid(rows, n, 0)), Reading)
  {
    if n == 0 {
      assert rows[..0] == [];
      var g := PartialGrid(rows, 0, 0);
      PositionExt(Position(turn, EmptyGrid()), Position(turn, g));
    } else {
      ReadCrlfRows(rows, n - 1, turn);
      var prefix := rows[..n];
      assert prefix[..|prefix| - 1] == rows[..n - 1];
      assert prefix[|prefix| - 1] == rows[n - 1];
      var before := CrlfText(rows[..n - 1]);
      var row := rows[n - 1];
      assert CrlfText(prefix) == before + row + ['\r', '\n'];
      RunAppend(Init(turn), before + row, ['\r', '\n']);
      RunAppend(Init(turn), before, row);
      ReadRowPrefix(rows, n - 1, 8, turn);
      assert row[..8] == row;
      var st := ParseState(8, n - 1, Position(turn, PartialGrid(rows, n - 1, 8)), Reading);
      assert Run(st, ['\r', '\n']) == Step(Step(st, '\r'), '\n') by {
        assert ['\r', '\n'][1..] == ['\n'];
        assert ['\n'][1..] == [];
      }
      PositionExt(Position(turn, PartialGrid(rows, n - 1, 8)), Position(turn, PartialGrid(rows, n, 0)));
    }
  }

  /**
   * load_from_input on a board text with CRLF line ends loads the same
   * board and turn as with plain newlines.
   */
  lemma CrlfBoardTextLoads(rows: seq<string>, c: char, rest: string, turn: Side)
    requires IsBoardRows(rows)
    ensures Load(CrlfText(rows) + [c] + rest, turn)
         == ParseState(0, 8, Position(TurnAfter(c, turn), GridOf(rows)), Done)
         == Load(Text(rows) + [c] + rest, turn)
  {
    BoardTextLoads(rows, c, rest, turn);
    ReadCrlfRows(rows, 8, turn);
    assert rows[..8] == rows;
    RunAppend(Init(turn), CrlfText(rows), [c] + rest);
    assert CrlfText(rows) + [c] + rest == CrlfText(rows) + ([c] + rest);
    assert ([c] + rest)[0] == c;
  }
}
