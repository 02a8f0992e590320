/**
 * Move generation of ChessBoard: all_moves (the 64 candidate move strings
 * from one origin) and legal_moves (the candidates of every origin that
 * holds a piece of the side to move, kept when is_legal_move accepts them).
 */
module MoveGen {
  import opened Wrappers
  import opened Notation
  import opened Board
  import opened Rules

  /** all_moves(coordinates): to_move(coordinates, (i, j)) for i, then j, in range(8), i.e. destination ScanSquare(k) at index k. */
  function Candidates(s: Square): (r: seq<string>)
    requires OnBoard(s)
    ensures |r| == 64
    ensures forall k | 0 <= k < 64 :: IsMoveString(r[k]) && Start(r[k]) == s && End(r[k]) == ScanSquare(k)
  {
    seq(64, k requires 0 <= k < 64 => ToMove(s, ScanSquare(k)))
  }

  /** Every move in ms is well formed and starts on an occupied square. */
  predicate FromOccupied(p: Position, ms: seq<string>)
    requires Valid(p)
  {
    forall m | m in ms :: IsMoveString(m) && PieceAt(p, Start(m)).Some?
  }

  /** The inner loop of legal_moves: the moves of ms that is_legal_move accepts, in order. */
  function FilterLegal(p: Position, ms: seq<string>): seq<string>
    requires Valid(p) && FromOccupied(p, ms)
    decreases |ms|
  {
    if ms == [] then []
    else
      var init, last := ms[..|ms| - 1], ms[|ms| - 1];
      assert forall m | m in init :: m in ms;
      assert ms == init + [last];
      FilterLegal(p, init) + (if IsLegalMove(p, last) then [last] else [])
  }

  /** The filter keeps exactly the moves of ms that is_legal_move accepts. */
  lemma {:induction false} FilterLegalMembers(p: Position, ms: seq<string>)
    requires Valid(p) && FromOccupied(p, ms)
    ensures forall m | m in FilterLegal(p, ms) :: m in ms && IsLegalMove(p, m)
    ensures forall m | m in ms && IsLegalMove(p, m) :: m in FilterLegal(p, ms)
    decreases |ms|
  {
    if ms != [] {
      var init, last := ms[..|ms| - 1], ms[|ms| - 1];
      assert forall m | m in init :: m in ms;
      assert ms == init + [last];
      FilterLegalMembers(p, init);
    }
  }

  /** The moves legal_moves collects for one origin. */
  function OriginMoves(p: Position, s: Square): seq<string>
    requires Valid(p) && OnBoard(s)
  {
    if Owns(p, s, p.turn) then FilterLegal(p, Candidates(s)) else []
  }

  /** The list legal_moves holds after visiting the first o origins. */
  function LegalUpTo(p: Position, o: int): seq<string>
    requires Valid(p) && 0 <= o <= 64
  {
    if o == 0 then [] else LegalUpTo(p, o - 1) + OriginMoves(p, ScanSquare(o - 1))
  }

  lemma OriginMovesSound(p: Position, s: Square)
    requires Valid(p) && OnBoard(s)
    ensures forall m | m in OriginMoves(p, s) :: IsMoveString(m) && Start(m) == s && Owns(p, s, p.turn) && IsLegalMove(p, m)
  {
    if Owns(p, s, p.turn) {
      FilterLegalMembers(p, Candidates(s));
    }
  }

  lemma {:induction false} LegalUpToSound(p: Position, o: int)
    requires Valid(p) && 0 <= o <= 64
    ensures forall m | m in LegalUpTo(p, o) :: IsMoveString(m) && Owns(p, Start(m), p.turn) && IsLegalMove(p, m)
  {
    if o > 0 {
      LegalUpToSound(p, o - 1);
      OriginMovesSound(p, ScanSquare(o - 1));
    }
  }

  /** legal_moves: the list the double scan over origins collects. */
  function LegalMoves(p: Position): (r: seq<string>)
    requires Valid(p)
    ensures forall m | m in r :: IsMoveString(m)
  {
    LegalUpToSound(p, 64);
    LegalUpTo(p, 64)
  }

  /**
   * legal_moves is sound: every move it returns starts on a piece of the
   * side to move and passes is_legal_move.
   */
  lemma LegalMovesSound(p: Position)
    requires Valid(p)
    ensures forall m | m in LegalMoves(p) :: IsMoveString(m) && Owns(p, Start(m), p.turn) && IsLegalMove(p, m)
  {
    LegalUpToSound(p, 64);
  }

  // ---- completeness and order ---------------------------------------------

  /** For one origin of the side to move, every legal move from it is collected. */
  lemma OriginMovesComplete(p: Position, s: Square, e: Square)
    requires Valid(p) && OnBoard(s) && OnBoard(e)
    requires Owns(p, s, p.turn) && IsLegal(p, s, e)
    ensures ToMove(s, e) in OriginMoves(p, s)
  {
    var m := ToMove(s, e);
    var k := 8 * e.x + e.y;
    assert ScanSquare(k) == e;
    assert Candidates(s)[k] == m;
    assert IsLegalMove(p, m);
    FilterLegalMembers(p, Candidates(s));
  }

  /** A move collected at origin s is in the list once the scan has passed s. */
  lemma {:induction false} LegalUpToComplete(p: Position, o: int, s: Square, m: string)
    requires Valid(p) && 0 <= o <= 64 && OnBoard(s)
    requires 8 * s.x + s.y < o && m in OriginMoves(p, s)
    ensures m in LegalUpTo(p, o)
  {
    var here := ScanSquare(o - 1);
    ScanIndexInjective(here, s);
    if 8 * s.x + s.y != o - 1 {
      LegalUpToComplete(p, o - 1, s, m);
    }
    assert LegalUpTo(p, o) == LegalUpTo(p, o - 1) + OriginMoves(p, here);
  }

  /**
   * legal_moves is complete: every legal move that starts on a piece of
   * the side to move is returned.
   */
  lemma LegalMovesComplete(p: Position, s: Square, e: Square)
    requires Valid(p) && OnBoard(s) && OnBoard(e)
    requires Owns(p, s, p.turn) && IsLegal(p, s, e)
    ensures ToMove(s, e) in LegalMoves(p)
  {
    OriginMovesComplete(p, s, e);
    LegalUpToComplete(p, 64, s, ToMove(s, e));
  }

  /** The scan position of a move: origin x, then origin y, then destination i, then destination j. */
  function Key(m: string): int
    requires IsMoveString(m)
  {
    64 * (8 * Start(m).x + Start(m).y) + 8 * End(m).x + End(m).y
  }

  predicate Increasing(ms: seq<string>) {
    forall a, b | 0 <= a < b < |ms| :: IsMoveString(ms[a]) && IsMoveString(ms[b]) && Key(ms[a]) < Key(ms[b])
  }

  /** Appending a move whose key exceeds every key of an increasing list keeps it increasing. */
  lemma AppendIncreasing(ms: seq<string>, x: string)
    requires Increasing(ms) && IsMoveString(x)
    requires forall m | m in ms :: IsMoveString(m) && Key(m) < Key(x)
    ensures Increasing(ms + [x])
  {
    var all := ms + [x];
    forall a, b | 0 <= a < b < |all|
      ensures IsMoveString(all[a]) && IsMoveString(all[b]) && Key(all[a]) < Key(all[b])
    {
      if b == |ms| {
        assert all[a] == ms[a] && ms[a] in ms;
      } else {
        assert all[a] == ms[a] && all[b] == ms[b];
      }
    }
  }

  /** Dropping the last move keeps a list increasing, and the last key exceeds all others. */
  lemma IncreasingInit(ms: seq<string>)
    requires Increasing(ms) && |ms| >= 1 && IsMoveString(ms[|ms| - 1])
    ensures Increasing(ms[..|ms| - 1])
    ensures forall m | m in ms[..|ms| - 1] :: IsMoveString(m) && Key(m) < Key(ms[|ms| - 1])
  {
    var init := ms[..|ms| - 1];
    forall a, b | 0 <= a < b < |init|
      ensures IsMoveString(init[a]) && IsMoveString(init[b]) && Key(init[a]) < Key(init[b])
    {
      assert init[a] == ms[a] && init[b] == ms[b];
    }
    forall m | m in init
      ensures IsMoveString(m) && Key(m) < Key(ms[|ms| - 1])
    {
      var a :| 0 <= a < |init| && init[a] == m;
      assert ms[a] == m;
    }
  }

  lemma {:induction false} FilterKeepsKeys(p: Position, ms: seq<string>, lo: int, hi: int)
    requires Valid(p) && FromOccupied(p, ms)
    requires forall m | m in ms :: lo <= Key(m) < hi
    requires Increasing(ms)
    ensures Increasing(FilterLegal(p, ms))
    ensures forall m | m in FilterLegal(p, ms) :: IsMoveString(m) && lo <= Key(m) < hi
    decreases |ms|
  {
    FilterLegalMembers(p, ms);
    if ms != [] {
      var init, last := ms[..|ms| - 1], ms[|ms| - 1];
      assert last in ms;
      IncreasingInit(ms);
      assert forall m | m in init :: m in ms;
      FilterKeepsKeys(p, init, lo, Key(last));
      var r := FilterLegal(p, init);
      assert FilterLegal(p, ms) == r + (if IsLegalMove(p, last) then [last] else []);
      if IsLegalMove(p, last) {
        AppendIncreasing(r, last);
      } else {
        assert r + [] == r;
      }
    }
  }

  lemma CandidatesIncreasing(s: Square)
    requires OnBoard(s)
    ensures Increasing(Candidates(s))
    ensures forall m | m in Candidates(s) :: 64 * (8 * s.x + s.y) <= Key(m) < 64 * (8 * s.x + s.y) + 64
  {
    var c := Candidates(s);
    forall m | m in c ensures 64 * (8 * s.x + s.y) <= Key(m) < 64 * (8 * s.x + s.y) + 64 {
      var k :| 0 <= k < 64 && c[k] == m;
    }
  }

  /** Two increasing lists, every key of the first below every key of the second, concatenate to an increasing list. */
  lemma ConcatIncreasing(before: seq<string>, here: seq<string>, bound: int)
    requires Increasing(before) && Increasing(here)
    requires forall m | m in before :: IsMoveString(m) && Key(m) < bound
    requires forall m | m in here :: IsMoveString(m) && bound <= Key(m)
    ensures Increasing(before + here)
  {
    var all := before + here;
    forall a, b | 0 <= a < b < |all|
      ensures IsMoveString(all[a]) && IsMoveString(all[b]) && Key(all[a]) < Key(all[b])
    {
      if b < |before| {
        assert all[a] == before[a] && all[b] == before[b];
      } else if a >= |before| {
        assert all[a] == here[a - |before|] && all[b] == here[b - |before|];
      } else {
        assert all[a] == before[a] && all[b] == here[b - |before|];
        assert before[a] in before && here[b - |before|] in here;
      }
    }
  }

  /** The moves of one origin are increasing and carry keys of that origin. */
  lemma OriginMovesIncreasing(p: Position, o: int)
    requires Valid(p) && 0 <= o < 64
    ensures Increasing(OriginMoves(p, ScanSquare(o)))
    ensures forall m | m in OriginMoves(p, ScanSquare(o)) :: IsMoveString(m) && 64 * o <= Key(m) < 64 * o + 64
  {
    var s := ScanSquare(o);
    OriginMovesSound(p, s);
    if Owns(p, s, p.turn) {
      CandidatesIncreasing(s);
      FilterKeepsKeys(p, Candidates(s), 64 * o, 64 * o + 64);
    }
  }

  lemma {:induction false} LegalUpToIncreasing(p: Position, o: int)
    requires Valid(p) && 0 <= o <= 64
    ensures Increasing(LegalUpTo(p, o))
    ensures forall m | m in LegalUpTo(p, o) :: IsMoveString(m) && Key(m) < 64 * o
  {
    if o > 0 {
      LegalUpToIncreasing(p, o - 1);
      OriginMovesIncreasing(p, o - 1);
      var before, here := LegalUpTo(p, o - 1), OriginMoves(p, ScanSquare(o - 1));
      ConcatIncreasing(before, here, 64 * (o - 1));
      assert LegalUpTo(p, o) == before + here;
      forall m | m in before + here
        ensures IsMoveString(m) && Key(m) < 64 * o
      {
        if m in here { } else { assert m in before; }
      }
    }
  }

  /**
   * legal_moves lists its moves in scan order, origin x, then origin y,
   * then destination i, then destination j, each at most once.
   */
  lemma LegalMovesOrdered(p: Position)
    requires Valid(p)
    ensures Increasing(LegalMoves(p))
  {
    LegalUpToIncreasing(p, 64);
  }
}
