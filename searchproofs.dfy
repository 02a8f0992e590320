/**
 * What the search computes: alphabeta, whose window is reset to the full
 * (-9999999, 9999999) at the root, returns exactly what minimax returns
 * whenever minimax returns at all and every evaluation stays within the
 * sentinels (which holds for every depth up to 1041), and both pick the
 * first root move whose value is best for the side to move.
 */
module SearchProofs {
  import opened Wrappers
  import opened Notation
  import opened Board
  import opened Rules
  import opened MoveGen
  import opened Evaluation
  import opened Search

  function Max(a: int, b: int): int { if a >= b then a else b }
  function Min(a: int, b: int): int { if a <= b then a else b }

  /**
   * The fail-soft alpha-beta relation between a true minimax value m and
   * the value r searched with window (alpha, beta): r is an upper bound of
   * m when r <= alpha, a lower bound when r >= beta, and exact in between.
   */
  predicate FailSoft(alpha: int, beta: int, m: int, r: int) {
    && (r <= alpha ==> m <= r)
    && (r >= beta ==> r <= m)
    && (alpha < r < beta ==> r == m)
  }

  lemma {:induction false} MaxLoopAtLeast(p: Position, moves: seq<string>, d: int, best: int)
    requires Valid(p) && AllMoveStrings(moves) && d >= 2 && MaxLoop(p, moves, d, best).Success?
    ensures MaxLoop(p, moves, d, best).value >= best
    decreases |moves|
  {
    if moves != [] {
      var v := MinValue(Apply(p, moves[0]), d).value;
      MaxLoopAtLeast(p, moves[1..], d, if v > best then v else best);
    }
  }

  lemma {:induction false} MinLoopAtMost(p: Position, moves: seq<string>, d: int, best: int)
    requires Valid(p) && AllMoveStrings(moves) && d >= 2 && MinLoop(p, moves, d, best).Success?
    ensures MinLoop(p, moves, d, best).value <= best
    decreases |moves|
  {
    if moves != [] {
      var v := MaxValue(Apply(p, moves[0]), d).value;
      MinLoopAtMost(p, moves[1..], d, if v < best then v else best);
    }
  }

  /** max_value_ab is a fail-soft alpha-beta search of max_value, for any window inside the sentinels. */
  lemma {:induction false} MaxValueABSound(p: Position, depth: int, alpha: int, beta: int)
    requires Valid(p) && depth >= 2
    requires -Infinity <= alpha < beta <= Infinity
    requires MaxValue(p, depth).Success?
    ensures MaxValueAB(p, depth, alpha, beta).Success?
    ensures FailSoft(alpha, beta, MaxValue(p, depth).value, MaxValueAB(p, depth, alpha, beta).value)
    decreases depth, 1
  {
    var d := depth - 1;
    if !KingDead(p, p.turn) && d != 1 {
      MaxLoopABSound(p, LegalMoves(p), d, alpha, beta, -Infinity, -Infinity);
    }
  }

  /** min_value_ab is a fail-soft alpha-beta search of min_value. */
  lemma {:induction false} MinValueABSound(p: Position, depth: int, alpha: int, beta: int)
    requires Valid(p) && depth >= 2
    requires -Infinity <= alpha < beta <= Infinity
    requires MinValue(p, depth).Success?
    ensures MinValueAB(p, depth, alpha, beta).Success?
    ensures FailSoft(alpha, beta, MinValue(p, depth).value, MinValueAB(p, depth, alpha, beta).value)
    decreases depth, 1
  {
    var d := depth - 1;
    if !KingDead(p, p.turn) && d != 1 {
      MinLoopABSound(p, LegalMoves(p), d, alpha, beta, Infinity, Infinity);
    }
  }

  /**
   * The loop of max_value_ab against the loop of max_value, from a state in
   * which minimax's best bm is at most alpha-beta's best bab, both agree
   * once bab rises above the original alpha0, no cut-off has happened
   * (bab < beta) and alpha has grown to Max(alpha0, bab).
   */
  lemma {:induction false} MaxLoopABSound(p: Position, moves: seq<string>, d: int, alpha0: int, beta: int, bm: int, bab: int)
    requires Valid(p) && AllMoveStrings(moves) && d >= 2
    requires -Infinity <= alpha0 < beta <= Infinity
    requires bm <= bab < beta
    requires bab > alpha0 ==> bab == bm
    requires MaxLoop(p, moves, d, bm).Success?
    ensures MaxLoopAB(p, moves, d, Max(alpha0, bab), beta, bab).Success?
    ensures FailSoft(alpha0, beta, MaxLoop(p, moves, d, bm).value, MaxLoopAB(p, moves, d, Max(alpha0, bab), beta, bab).value)
    decreases d + 1, 0, |moves|, 1
  {
    if moves != [] {
      var child := Apply(p, moves[0]);
      MinValueABSound(child, d, Max(alpha0, bab), beta);
      if MinValueAB(child, d, Max(alpha0, bab), beta).value >= beta {
        MaxLoopAtLeast(p, moves[1..], d, Max(MinValue(child, d).value, bm));
      } else {
        MaxLoopABNoCutoff(p, moves, d, alpha0, beta, bm, bab);
      }
    }
  }

  /** MaxLoopABSound when the first child stays below beta: the loop continues on the rest. */
  lemma {:induction false} MaxLoopABNoCutoff(p: Position, moves: seq<string>, d: int, alpha0: int, beta: int, bm: int, bab: int)
    requires Valid(p) && AllMoveStrings(moves) && d >= 2 && moves != []
    requires -Infinity <= alpha0 < beta <= Infinity
    requires bm <= bab < beta
    requires bab > alpha0 ==> bab == bm
    requires MaxLoop(p, moves, d, bm).Success?
    requires MinValue(Apply(p, moves[0]), d).Success? && MinValueAB(Apply(p, moves[0]), d, Max(alpha0, bab), beta).Success?
    requires FailSoft(Max(alpha0, bab), beta, MinValue(Apply(p, moves[0]), d).value, MinValueAB(Apply(p, moves[0]), d, Max(alpha0, bab), beta).value)
    requires MinValueAB(Apply(p, moves[0]), d, Max(alpha0, bab), beta).value < beta
    ensures MaxLoopAB(p, moves, d, Max(alpha0, bab), beta, bab).Success?
    ensures FailSoft(alpha0, beta, MaxLoop(p, moves, d, bm).value, MaxLoopAB(p, moves, d, Max(alpha0, bab), beta, bab).value)
    decreases d + 1, 0, |moves|, 0
  {
    var child := Apply(p, moves[0]);
    var a := Max(alpha0, bab);
    var m1, r1 := MinValue(child, d).value, MinValueAB(child, d, a, beta).value;
    MaxStepKeepsWindow(alpha0, beta, bm, bab, m1, r1);
    MaxLoopABSound(p, moves[1..], d, alpha0, beta, Max(m1, bm), Max(r1, bab));
  }

  /** The window facts MaxLoopABSound needs survive one child that causes no cut-off. */
  lemma MaxStepKeepsWindow(alpha0: int, beta: int, bm: int, bab: int, m1: int, r1: int)
    requires bm <= bab < beta && (bab > alpha0 ==> bab == bm)
    requires FailSoft(Max(alpha0, bab), beta, m1, r1) && r1 < beta
    ensures Max(m1, bm) <= Max(r1, bab) < beta
    ensures Max(r1, bab) > alpha0 ==> Max(r1, bab) == Max(m1, bm)
    ensures Max(alpha0, Max(r1, bab)) == if Max(alpha0, bab) >= r1 then Max(alpha0, bab) else r1
    ensures Max(r1, bab) == if r1 > bab then r1 else bab
    ensures Max(m1, bm) == if m1 > bm then m1 else bm
  {
  }

  /** The loop of min_value_ab against the loop of min_value; the mirror image of MaxLoopABSound. */
  lemma {:induction false} MinLoopABSound(p: Position, moves: seq<string>, d: int, alpha: int, beta0: int, bm: int, bab: int)
    requires Valid(p) && AllMoveStrings(moves) && d >= 2
    requires -Infinity <= alpha < beta0 <= Infinity
    requires alpha < bab <= bm
    requires bab < beta0 ==> bab == bm
    requires MinLoop(p, moves, d, bm).Success?
    ensures MinLoopAB(p, moves, d, alpha, Min(beta0, bab), bab).Success?
    ensures FailSoft(alpha, beta0, MinLoop(p, moves, d, bm).value, MinLoopAB(p, moves, d, alpha, Min(beta0, bab), bab).value)
    decreases d + 1, 0, |moves|, 1
  {
    if moves != [] {
      var child := Apply(p, moves[0]);
      MaxValueABSound(child, d, alpha, Min(beta0, bab));
      if MaxValueAB(child, d, alpha, Min(beta0, bab)).value <= alpha {
        MinLoopAtMost(p, moves[1..], d, Min(MaxValue(child, d).value, bm));
      } else {
        MinLoopABNoCutoff(p, moves, d, alpha, beta0, bm, bab);
      }
    }
  }

  /** MinLoopABSound when the first child stays above alpha: the loop continues on the rest. */
  lemma {:induction false} MinLoopABNoCutoff(p: Position, moves: seq<string>, d: int, alpha: int, beta0: int, bm: int, bab: int)
    requires Valid(p) && AllMoveStrings(moves) && d >= 2 && moves != []
    requires -Infinity <= alpha < beta0 <= Infinity
    requires alpha < bab <= bm
    requires bab < beta0 ==> bab == bm
    requires MinLoop(p, moves, d, bm).Success?
    requires MaxValue(Apply(p, moves[0]), d).Success? && MaxValueAB(Apply(p, moves[0]), d, alpha, Min(beta0, bab)).Success?
    requires FailSoft(alpha, Min(beta0, bab), MaxValue(Apply(p, moves[0]), d).value, MaxValueAB(Apply(p, moves[0]), d, alpha, Min(beta0, bab)).value)
    requires MaxValueAB(Apply(p, moves[0]), d, alpha, Min(beta0, bab)).value > alpha
    ensures MinLoopAB(p, moves, d, alpha, Min(beta0, bab), bab).Success?
    ensures FailSoft(alpha, beta0, MinLoop(p, moves, d, bm).value, MinLoopAB(p, moves, d, alpha, Min(beta0, bab), bab).value)
    decreases d + 1, 0, |moves|, 0
  {
    var child := Apply(p, moves[0]);
    var b := Min(beta0, bab);
    var m1, r1 := MaxValue(child, d).value, MaxValueAB(child, d, alpha, b).value;
    MinStepKeepsWindow(alpha, beta0, bm, bab, m1, r1);
    MinLoopABSound(p, moves[1..], d, alpha, beta0, Min(m1, bm), Min(r1, bab));
  }

  /** The window facts MinLoopABSound needs survive one child that causes no cut-off. */
  lemma MinStepKeepsWindow(alpha: int, beta0: int, bm: int, bab: int, m1: int, r1: int)
    requires alpha < bab <= bm && (bab < beta0 ==> bab == bm)
    requires FailSoft(alpha, Min(beta0, bab), m1, r1) && r1 > alpha
    ensures alpha < Min(r1, bab) <= Min(m1, bm)
    ensures Min(r1, bab) < beta0 ==> Min(r1, bab) == Min(m1, bm)
    ensures Min(beta0, Min(r1, bab)) == if Min(beta0, bab) <= r1 then Min(beta0, bab) else r1
    ensures Min(r1, bab) == if r1 < bab then r1 else bab
    ensures Min(m1, bm) == if m1 < bm then m1 else bm
  {
  }

  // ---- every value lies within the sentinels ---------------------------------

  /** The depth up to which every evaluation fits within +-9999999: 9600 * 1041 <= 9999999. */
  const MaxSafeDepth: int := 1041

  lemma EvaluateWithinSentinels(p: Position, d: int)
    requires Valid(p) && 0 <= d <= MaxSafeDepth
    ensures -Infinity <= Evaluate(p, d) <= Infinity
  {
    EvaluateBounds(p, d);
  }

  lemma HorizonWithinSentinels(p: Position)
    requires Valid(p) && MinOf(Scores(p, LegalMoves(p), 1)).Success?
    ensures -Infinity <= MinOf(Scores(p, LegalMoves(p), 1)).value <= Infinity
  {
    var moves := LegalMoves(p);
    var s := Scores(p, moves, 1);
    var k :| 0 <= k < |s| && s[k] == MinOf(s).value;
    EvaluateWithinSentinels(Apply(p, moves[k]), 1);
  }

  lemma {:induction false} MinValueBounded(p: Position, depth: int)
    requires Valid(p) && 2 <= depth <= MaxSafeDepth + 1 && MinValue(p, depth).Success?
    ensures -Infinity <= MinValue(p, depth).value <= Infinity
    decreases depth, 1
  {
    var d := depth - 1;
    if KingDead(p, p.turn) {
      EvaluateWithinSentinels(p, d);
    } else if d == 1 {
      HorizonWithinSentinels(p);
    } else {
      MinLoopBounded(p, LegalMoves(p), d, Infinity);
    }
  }

  lemma {:induction false} MaxValueBounded(p: Position, depth: int)
    requires Valid(p) && 2 <= depth <= MaxSafeDepth + 1 && MaxValue(p, depth).Success?
    ensures -Infinity <= MaxValue(p, depth).value <= Infinity
    decreases depth, 1
  {
    var d := depth - 1;
    if KingDead(p, p.turn) {
      EvaluateWithinSentinels(p, d);
    } else if d == 1 {
      HorizonWithinSentinels(p);
    } else {
      MaxLoopBounded(p, LegalMoves(p), d, -Infinity);
    }
  }

  lemma {:induction false} MinLoopBounded(p: Position, moves: seq<string>, d: int, best: int)
    requires Valid(p) && AllMoveStrings(moves) && 2 <= d <= MaxSafeDepth && MinLoop(p, moves, d, best).Success?
    requires -Infinity <= best <= Infinity
    ensures -Infinity <= MinLoop(p, moves, d, best).value <= Infinity
    decreases d + 1, 0, |moves|
  {
    if moves != [] {
      var child := Apply(p, moves[0]);
      MaxValueBounded(child, d);
      var v := MaxValue(child, d).value;
      MinLoopBounded(p, moves[1..], d, if v < best then v else best);
    }
  }

  lemma {:induction false} MaxLoopBounded(p: Position, moves: seq<string>, d: int, best: int)
    requires Valid(p) && AllMoveStrings(moves) && 2 <= d <= MaxSafeDepth && MaxLoop(p, moves, d, best).Success?
    requires -Infinity <= best <= Infinity
    ensures -Infinity <= MaxLoop(p, moves, d, best).value <= Infinity
    decreases d + 1, 0, |moves|
  {
    if moves != [] {
      var child := Apply(p, moves[0]);
      MinValueBounded(child, d);
      var v := MinValue(child, d).value;
      MaxLoopBounded(p, moves[1..], d, if v > best then v else best);
    }
  }

  lemma ChildValueBounded(p: Position, m: string, depth: int)
    requires Valid(p) && IsMoveString(m) && 2 <= depth <= MaxSafeDepth + 1
    requires ChildValue(p, m, depth).Success?
    ensures -Infinity <= ChildValue(p, m, depth).value <= Infinity
  {
    if p.turn == Black {
      MaxValueBounded(Apply(p, m), depth);
    } else {
      MinValueBounded(Apply(p, m), depth);
    }
  }

  /** Every value among the outcomes lies within +-9999999. */
  ghost predicate WithinSentinels(vals: seq<Outcome<int>>) {
    forall j | 0 <= j < |vals| && vals[j].Success? :: -Infinity <= vals[j].value <= Infinity
  }

  lemma ChildValuesBounded(p: Position, moves: seq<string>, depth: int)
    requires Valid(p) && AllMoveStrings(moves) && 2 <= depth <= MaxSafeDepth + 1
    ensures WithinSentinels(ChildValues(p, moves, depth))
  {
    var vals := ChildValues(p, moves, depth);
    forall j | 0 <= j < |vals| && vals[j].Success?
      ensures -Infinity <= vals[j].value <= Infinity
    {
      ChildValueBounded(p, moves[j], depth);
    }
  }

  // ---- the root ---------------------------------------------------------------

  /** A root child searched with the full window gets its exact minimax value. */
  lemma ChildValueABAgrees(p: Position, m: string, depth: int)
    requires Valid(p) && IsMoveString(m) && 2 <= depth <= MaxSafeDepth + 1
    requires ChildValue(p, m, depth).Success?
    ensures ChildValueAB(p, m, depth) == ChildValue(p, m, depth)
  {
    var child := Apply(p, m);
    if p.turn == Black {
      MaxValueABSound(child, depth, -Infinity, Infinity);
      MaxValueBounded(child, depth);
    } else {
      MinValueABSound(child, depth, -Infinity, Infinity);
      MinValueBounded(child, depth);
    }
  }

  lemma {:induction false} RootLoopABAgrees(p: Position, moves: seq<string>, depth: int, bestScore: int, bestMove: string)
    requires Valid(p) && AllMoveStrings(moves) && 2 <= depth <= MaxSafeDepth + 1
    requires RootLoop(p, moves, depth, bestScore, bestMove).Success?
    ensures RootLoopAB(p, moves, depth, bestScore, bestMove) == RootLoop(p, moves, depth, bestScore, bestMove)
    decreases |moves|
  {
    if moves != [] {
      ChildValueABAgrees(p, moves[0], depth);
      var v := ChildValue(p, moves[0], depth).value;
      if Better(p.turn, v, bestScore) {
        RootLoopABAgrees(p, moves[1..], depth, v, moves[0]);
      } else {
        RootLoopABAgrees(p, moves[1..], depth, bestScore, bestMove);
      }
    }
  }

  /**
   * alphabeta returns the same (score, move) as minimax, whatever alpha and
   * beta it is called with, whenever minimax returns (raises no exception)
   * and 1 <= depth <= 1041.
   */
  lemma AlphaBetaAgreesWithMinimax(p: Position, depth: int, alpha: int, beta: int)
    requires Valid(p) && 1 <= depth <= MaxSafeDepth
    requires Minimax(p, depth).Success?
    ensures AlphaBeta(p, depth, alpha, beta) == Minimax(p, depth)
  {
    var moves := LegalMoves(p);
    RootLoopABAgrees(p, moves, depth + 1, Worst(p.turn), moves[0]);
  }

  /** The outcomes of the root's children, in move order. */
  ghost function ChildValues(p: Position, moves: seq<string>, depth: int): (vs: seq<Outcome<int>>)
    requires Valid(p) && AllMoveStrings(moves) && depth >= 2
    ensures |vs| == |moves|
  {
    seq(|moves|, j requires 0 <= j < |moves| => ChildValue(p, moves[j], depth))
  }

  /**
   * answer = (score, move) is a first best choice among moves with outcomes
   * vals: every outcome is a value no better than score for side, and move
   * is the first move whose value is score.
   */
  ghost predicate FirstBestOf(side: Side, vals: seq<Outcome<int>>, moves: seq<string>, answer: (int, string))
    requires |vals| == |moves|
  {
    && (forall j | 0 <= j < |vals| :: vals[j].Success? && !Better(side, vals[j].value, answer.0))
    && exists k | 0 <= k < |vals| ::
          && moves[k] == answer.1
          && vals[k] == Success(answer.0)
          && forall j | 0 <= j < k :: vals[j] != Success(answer.0)
  }

  ghost predicate FirstBest(p: Position, moves: seq<string>, depth: int, answer: (int, string))
    requires Valid(p) && AllMoveStrings(moves) && depth >= 2
  {
    FirstBestOf(p.turn, ChildValues(p, moves, depth), moves, answer)
  }

  /** The root loop of minimax over already computed child outcomes. */
  function ScanBest(side: Side, vals: seq<Outcome<int>>, moves: seq<string>, bestScore: int, bestMove: string)
    : Outcome<(int, string)>
    requires |vals| == |moves|
    decreases |moves|
  {
    if moves == [] then Success((bestScore, bestMove))
    else match vals[0]
      case Failure(e) => Failure(e)
      case Success(v) =>
        if Better(side, v, bestScore) then ScanBest(side, vals[1..], moves[1..], v, moves[0])
        else ScanBest(side, vals[1..], moves[1..], bestScore, bestMove)
  }

  lemma {:induction false} RootLoopIsScan(p: Position, moves: seq<string>, depth: int, bestScore: int, bestMove: string)
    requires Valid(p) && AllMoveStrings(moves) && depth >= 2
    ensures RootLoop(p, moves, depth, bestScore, bestMove)
            == ScanBest(p.turn, ChildValues(p, moves, depth), moves, bestScore, bestMove)
    decreases |moves|
  {
    if moves != [] {
      var vals := ChildValues(p, moves, depth);
      assert vals[1..] == ChildValues(p, moves[1..], depth);
      var v := ChildValue(p, moves[0], depth);
      if v.Success? {
        RootLoopIsScan(p, moves[1..], depth, v.value, moves[0]);
        RootLoopIsScan(p, moves[1..], depth, bestScore, bestMove);
      }
    }
  }

  /** What the root loop knows after visiting the first i moves. */
  ghost predicate RootInv(side: Side, vals: seq<Outcome<int>>, moves: seq<string>, i: int, bestScore: int, bestMove: string)
    requires |vals| == |moves| && 0 <= i <= |moves|
  {
    && (forall j | 0 <= j < i :: vals[j].Success? && !Better(side, vals[j].value, bestScore))
    && (i == 0 ==> 0 < |moves| && bestScore == Worst(side) && bestMove == moves[0])
    && (i > 0 ==> exists k | 0 <= k < i ::
          && moves[k] == bestMove
          && vals[k] == Success(bestScore)
          && forall j | 0 <= j < k :: vals[j] != Success(bestScore))
  }

  lemma RootInvBetter(side: Side, vals: seq<Outcome<int>>, moves: seq<string>, i: int, bestScore: int, bestMove: string)
    requires |vals| == |moves| && 0 <= i < |moves|
    requires RootInv(side, vals, moves, i, bestScore, bestMove)
    requires vals[i].Success? && Better(side, vals[i].value, bestScore)
    ensures RootInv(side, vals, moves, i + 1, vals[i].value, moves[i])
  {
    assert forall j | 0 <= j < i :: vals[j] != Success(vals[i].value);
  }

  lemma RootInvKeep(side: Side, vals: seq<Outcome<int>>, moves: seq<string>, i: int, bestScore: int, bestMove: string)
    requires |vals| == |moves| && 0 <= i < |moves|
    requires RootInv(side, vals, moves, i, bestScore, bestMove)
    requires vals[i].Success? && !Better(side, vals[i].value, bestScore)
    requires -Infinity <= vals[i].value <= Infinity
    ensures RootInv(side, vals, moves, i + 1, bestScore, bestMove)
  {
    if i == 0 {
      assert vals[0] == Success(bestScore);
    }
  }

  /** A scan that keeps the first strictly better value, started from the worst sentinel, finds the first best. */
  lemma {:induction false} ScanFindsFirstBest(side: Side, vals: seq<Outcome<int>>, moves: seq<string>, i: int, bestScore: int, bestMove: string)
    requires |vals| == |moves| && 0 <= i <= |moves|
    requires WithinSentinels(vals)
    requires RootInv(side, vals, moves, i, bestScore, bestMove)
    requires ScanBest(side, vals[i..], moves[i..], bestScore, bestMove).Success?
    ensures FirstBestOf(side, vals, moves, ScanBest(side, vals[i..], moves[i..], bestScore, bestMove).value)
    decreases |moves| - i
  {
    if i == |moves| {
      assert moves[i..] == [];
    } else {
      assert vals[i..][0] == vals[i] && vals[i..][1..] == vals[i + 1..];
      assert moves[i..][0] == moves[i] && moves[i..][1..] == moves[i + 1..];
      var v := vals[i].value;
      if Better(side, v, bestScore) {
        RootInvBetter(side, vals, moves, i, bestScore, bestMove);
        ScanFindsFirstBest(side, vals, moves, i + 1, v, moves[i]);
      } else {
        RootInvKeep(side, vals, moves, i, bestScore, bestMove);
        ScanFindsFirstBest(side, vals, moves, i + 1, bestScore, bestMove);
      }
    }
  }

  /**
   * minimax returns the first legal move whose value is best for the side
   * to move (lowest for Black, highest for White), with that value.
   */
  lemma MinimaxPicksFirstBest(p: Position, depth: int)
    requires Valid(p) && 1 <= depth <= MaxSafeDepth && Minimax(p, depth).Success?
    ensures FirstBest(p, LegalMoves(p), depth + 1, Minimax(p, depth).value)
  {
    MinimaxIsScan(p, depth);
    RootScanFindsFirstBest(p, LegalMoves(p), depth + 1);
  }

  /** minimax's answer is the scan of its root children's outcomes. */
  lemma MinimaxIsScan(p: Position, depth: int)
    requires Valid(p) && depth >= 1 && Minimax(p, depth).Success?
    ensures LegalMoves(p) != []
    ensures Minimax(p, depth) == ScanBest(p.turn, ChildValues(p, LegalMoves(p), depth + 1), LegalMoves(p), Worst(p.turn), LegalMoves(p)[0])
  {
    var moves := LegalMoves(p);
    RootLoopIsScan(p, moves, depth + 1, Worst(p.turn), moves[0]);
  }

  /** The scan of the root children started as minimax starts it finds the first best move. */
  lemma RootScanFindsFirstBest(p: Position, moves: seq<string>, depth: int)
    requires Valid(p) && AllMoveStrings(moves) && moves != [] && 2 <= depth <= MaxSafeDepth + 1
    requires ScanBest(p.turn, ChildValues(p, moves, depth), moves, Worst(p.turn), moves[0]).Success?
    ensures FirstBest(p, moves, depth, ScanBest(p.turn, ChildValues(p, moves, depth), moves, Worst(p.turn), moves[0]).value)
  {
    var vals := ChildValues(p, moves, depth);
    ChildValuesBounded(p, moves, depth);
    assert vals[0..] == vals && moves[0..] == moves;
    ScanFindsFirstBest(p.turn, vals, moves, 0, Worst(p.turn), moves[0]);
  }

  /** alphabeta makes the same choice. */
  lemma AlphaBetaPicksFirstBest(p: Position, depth: int, alpha: int, beta: int)
    requires Valid(p) && 1 <= depth <= MaxSafeDepth && Minimax(p, depth).Success?
    ensures AlphaBeta(p, depth, alpha, beta).Success?
    ensures FirstBest(p, LegalMoves(p), depth + 1, AlphaBeta(p, depth, alpha, beta).value)
  {
    AlphaBetaAgreesWithMinimax(p, depth, alpha, beta);
    MinimaxPicksFirstBest(p, depth);
  }

  // ---- which exception is raised -----------------------------------------------

  /**
   * At the horizon (depth 2, so d == 1) max_value and max_value_ab return
   * the minimum of the evaluations, exactly as min_value does, and the
   * ValueError of min() is raised precisely when the side to move still has
   * its King but no legal move.
   */
  lemma HorizonIsMinimum(p: Position, alpha: int, beta: int)
    requires Valid(p)
    ensures MaxValue(p, 2) == MinValue(p, 2) == MaxValueAB(p, 2, alpha, beta) == MinValueAB(p, 2, alpha, beta)
    ensures MinValue(p, 2).Failure? <==> !KingDead(p, p.turn) && LegalMoves(p) == []
    ensures MinValue(p, 2).Failure? ==> MinValue(p, 2).error == EmptyScores
  {
  }

  /** Below the root, the only failure is the ValueError of min() on an empty list of scores. */
  lemma {:induction false} MinValueFailsOnlyEmpty(p: Position, depth: int, alpha: int, beta: int)
    requires Valid(p) && depth >= 2
    ensures MinValue(p, depth).Failure? ==> MinValue(p, depth).error == EmptyScores
    ensures MinValueAB(p, depth, alpha, beta).Failure? ==> MinValueAB(p, depth, alpha, beta).error == EmptyScores
    decreases depth, 1
  {
    var d := depth - 1;
    if !KingDead(p, p.turn) && d != 1 {
      MinLoopFailsOnlyEmpty(p, LegalMoves(p), d, Infinity);
      MinLoopABFailsOnlyEmpty(p, LegalMoves(p), d, alpha, beta, Infinity);
    }
  }

  lemma {:induction false} MaxValueFailsOnlyEmpty(p: Position, depth: int, alpha: int, beta: int)
    requires Valid(p) && depth >= 2
    ensures MaxValue(p, depth).Failure? ==> MaxValue(p, depth).error == EmptyScores
    ensures MaxValueAB(p, depth, alpha, beta).Failure? ==> MaxValueAB(p, depth, alpha, beta).error == EmptyScores
    decreases depth, 1
  {
    var d := depth - 1;
    if !KingDead(p, p.turn) && d != 1 {
      MaxLoopFailsOnlyEmpty(p, LegalMoves(p), d, -Infinity);
      MaxLoopABFailsOnlyEmpty(p, LegalMoves(p), d, alpha, beta, -Infinity);
    }
  }

  lemma {:induction false} MinLoopFailsOnlyEmpty(p: Position, moves: seq<string>, d: int, best: int)
    requires Valid(p) && AllMoveStrings(moves) && d >= 2
    ensures MinLoop(p, moves, d, best).Failure? ==> MinLoop(p, moves, d, best).error == EmptyScores
    decreases d + 1, 0, |moves|
  {
    if moves != [] {
      var v := MaxValue(Apply(p, moves[0]), d);
      MaxValueFailsOnlyEmpty(Apply(p, moves[0]), d, 0, 0);
      MinLoopFailsOnlyEmpty(p, moves[1..], d, if v.Success? && v.value < best then v.value else best);
    }
  }

  lemma {:induction false} MinLoopABFailsOnlyEmpty(p: Position, moves: seq<string>, d: int, alpha: int, beta: int, best: int)
    requires Valid(p) && AllMoveStrings(moves) && d >= 2
    ensures MinLoopAB(p, moves, d, alpha, beta, best).Failure? ==> MinLoopAB(p, moves, d, alpha, beta, best).error == EmptyScores
    decreases d + 1, 0, |moves|
  {
    if moves != [] {
      var w := MaxValueAB(Apply(p, moves[0]), d, alpha, beta);
      MaxValueFailsOnlyEmpty(Apply(p, moves[0]), d, alpha, beta);
      if w.Success? {
        MinLoopABFailsOnlyEmpty(p, moves[1..], d, alpha, if beta <= w.value then beta else w.value, if w.value < best then w.value else best);
      }
    }
  }

  lemma {:induction false} MaxLoopFailsOnlyEmpty(p: Position, moves: seq<string>, d: int, best: int)
    requires Valid(p) && AllMoveStrings(moves) && d >= 2
    ensures MaxLoop(p, moves, d, best).Failure? ==> MaxLoop(p, moves, d, best).error == EmptyScores
    decreases d + 1, 0, |moves|
  {
    if moves != [] {
      var v := MinValue(Apply(p, moves[0]), d);
      MinValueFailsOnlyEmpty(Apply(p, moves[0]), d, 0, 0);
      MaxLoopFailsOnlyEmpty(p, moves[1..], d, if v.Success? && v.value > best then v.value else best);
    }
  }

  lemma {:induction false} MaxLoopABFailsOnlyEmpty(p: Position, moves: seq<string>, d: int, alpha: int, beta: int, best: int)
    requires Valid(p) && AllMoveStrings(moves) && d >= 2
    ensures MaxLoopAB(p, moves, d, alpha, beta, best).Failure? ==> MaxLoopAB(p, moves, d, alpha, beta, best).error == EmptyScores
    decreases d + 1, 0, |moves|
  {
    if moves != [] {
      var w := MinValueAB(Apply(p, moves[0]), d, alpha, beta);
      MinValueFailsOnlyEmpty(Apply(p, moves[0]), d, alpha, beta);
      if w.Success? {
        MaxLoopABFailsOnlyEmpty(p, moves[1..], d, if alpha >= w.value then alpha else w.value, beta, if w.value > best then w.value else best);
      }
    }
  }

  lemma {:induction false} RootLoopFailsOnlyEmpty(p: Position, moves: seq<string>, depth: int, bestScore: int, bestMove: string)
    requires Valid(p) && AllMoveStrings(moves) && depth >= 2
    ensures RootLoop(p, moves, depth, bestScore, bestMove).Failure? ==>
              RootLoop(p, moves, depth, bestScore, bestMove).error == EmptyScores
    ensures RootLoopAB(p, moves, depth, bestScore, bestMove).Failure? ==>
              RootLoopAB(p, moves, depth, bestScore, bestMove).error == EmptyScores
    decreases |moves|
  {
    if moves != [] {
      var child := Apply(p, moves[0]);
      MinValueFailsOnlyEmpty(child, depth, -Infinity, Infinity);
      MaxValueFailsOnlyEmpty(child, depth, -Infinity, Infinity);
      var v := ChildValue(p, moves[0], depth);
      var w := ChildValueAB(p, moves[0], depth);
      RootLoopFailsOnlyEmpty(p, moves[1..], depth,
        if v.Success? && Better(p.turn, v.value, bestScore) then v.value else bestScore,
        if v.Success? && Better(p.turn, v.value, bestScore) then moves[0] else bestMove);
      RootLoopFailsOnlyEmpty(p, moves[1..], depth,
        if w.Success? && Better(p.turn, w.value, bestScore) then w.value else bestScore,
        if w.Success? && Better(p.turn, w.value, bestScore) then moves[0] else bestMove);
    }
  }

  /**
   * minimax and alphabeta raise the IndexError of possible_moves[0] exactly
   * when the side to move has no legal move; any other failure is the
   * ValueError of min() deeper in the tree.
   */
  lemma NoRootMoveIffNoLegalMove(p: Position, depth: int, alpha: int, beta: int)
    requires Valid(p) && depth >= 1
    ensures Minimax(p, depth) == Failure(NoRootMove) <==> LegalMoves(p) == []
    ensures AlphaBeta(p, depth, alpha, beta) == Failure(NoRootMove) <==> LegalMoves(p) == []
    ensures Minimax(p, depth).Failure? && LegalMoves(p) != [] ==> Minimax(p, depth).error == EmptyScores
    ensures AlphaBeta(p, depth, alpha, beta).Failure? && LegalMoves(p) != [] ==> AlphaBeta(p, depth, alpha, beta).error == EmptyScores
  {
    var moves := LegalMoves(p);
    if moves != [] {
      RootLoopFailsOnlyEmpty(p, moves, depth + 1, Worst(p.turn), moves[0]);
    }
  }
}
