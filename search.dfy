/** The exhaustive strategy: minimax and bestMove. Both work on the shared
    array of cells: they write a mark, search on, and clear the cell again.
    MinimaxValue and BestMoveChoice give the value such a search computes; the
    methods are proved to compute it and to leave the cells as they found them.

    The orientation is the source's: the maximising ply places O, although a
    score of +10 means that X holds a line, and bestMove maximises over O's
    moves. The search therefore steers O towards X's wins. */
module Search {
  import opened Boards

  /** The -Infinity and +Infinity that start a running maximum and minimum;
      every score lies strictly between them. */
  const MinusInfinity: int := -11
  const PlusInfinity: int := 11

  /** The values the search can produce. */
  predicate IsScore(s: int)
  {
    s == -10 || s == 0 || s == 10
  }

  /** The mark the current ply places: O when maximising, X when minimising. */
  function Mover(isMaximizing: bool): Side
  {
    if isMaximizing then O else X
  }

  /** The start of the running best of one ply. */
  function Start(isMaximizing: bool): int
  {
    if isMaximizing then MinusInfinity else PlusInfinity
  }

  function Max(a: int, b: int): int { if a >= b then a else b }
  function Min(a: int, b: int): int { if a <= b then a else b }

  /** The running best after one more move score (Math.max or Math.min). */
  function Better(isMaximizing: bool, moveScore: int, best: int): int
  {
    if isMaximizing then Max(moveScore, best) else Min(moveScore, best)
  }

  /** The value minimax returns for board b: the evaluation of a finished
      board, and otherwise the best, for the side to move, of the values after
      each move in an empty cell. */
  function MinimaxValue(b: Board, isMaximizing: bool): (r: int)
    ensures IsScore(r)
    ensures Evaluate(b).Some? ==> r == Evaluate(b).value
    decreases Count(b, Empty), 1, 0
  {
    match Evaluate(b)
    case Some(score) => score
    case None =>
      assert exists j :: 0 <= j < 9 && b[j] == Empty;
      MinimaxLoop(b, isMaximizing, 0, Start(isMaximizing))
  }

  /** The loop over the cells of one ply, from cell i on, with running best. */
  function MinimaxLoop(b: Board, isMaximizing: bool, i: nat, best: int): (r: int)
    requires i <= 9
    requires IsScore(best) || best == Start(isMaximizing)
    ensures IsScore(r) || r == best
    ensures (exists j :: i <= j < 9 && b[j] == Empty) ==> IsScore(r)
    decreases Count(b, Empty), 0, 9 - i
  {
    if i == 9 then best
    else if b[i] == Empty then
      CountUpdate(b, i, Mover(isMaximizing));
      var moveScore := MinimaxValue(b[i := Mover(isMaximizing)], !isMaximizing);
      MinimaxLoop(b, isMaximizing, i + 1, Better(isMaximizing, moveScore, best))
    else
      MinimaxLoop(b, isMaximizing, i + 1, best)
  }

  /** The value of the move in empty cell j for the side that moves at this ply. */
  function Child(b: Board, isMaximizing: bool, j: Index): int
    requires b[j] == Empty
  {
    MinimaxValue(b[j := Mover(isMaximizing)], !isMaximizing)
  }

  /** The values of the moves of one ply, in board order (Start for an
      occupied cell, which the loop skips): every empty cell carries a score
      and every occupied one the start value. */
  function ChildScores(b: Board, isMaximizing: bool): (scores: seq<int>)
    ensures |scores| == 9
    ensures forall j: Index :: b[j] == Empty ==> scores[j] == Child(b, isMaximizing, j) && IsScore(scores[j])
    ensures forall j: Index :: b[j] != Empty ==> scores[j] == Start(isMaximizing)
  {
    seq(9, j requires 0 <= j < 9 => if b[j] == Empty then Child(b, isMaximizing, j) else Start(isMaximizing))
  }

  /** The running best over the empty cells from i on, given their scores. */
  function Fold(b: Board, scores: seq<int>, isMaximizing: bool, i: nat, best: int): int
    requires |scores| == 9 && i <= 9
    decreases 9 - i
  {
    if i == 9 then best
    else if b[i] == Empty then Fold(b, scores, isMaximizing, i + 1, Better(isMaximizing, scores[i], best))
    else Fold(b, scores, isMaximizing, i + 1, best)
  }

  lemma {:induction false} MinimaxLoopIsFold(b: Board, isMaximizing: bool, i: nat, best: int)
    requires i <= 9
    requires IsScore(best) || best == Start(isMaximizing)
    ensures MinimaxLoop(b, isMaximizing, i, best) == Fold(b, ChildScores(b, isMaximizing), isMaximizing, i, best)
    decreases 9 - i
  {
    if i < 9 {
      if b[i] == Empty {
        MinimaxLoopIsFold(b, isMaximizing, i + 1, Better(isMaximizing, Child(b, isMaximizing, i), best));
      } else {
        MinimaxLoopIsFold(b, isMaximizing, i + 1, best);
      }
    }
  }

  /** The fold's result is the best of its running value and of the scores of
      the empty cells it still visits, and it is one of them. */
  lemma {:induction false} FoldIsBest(b: Board, scores: seq<int>, isMaximizing: bool, i: nat, best: int)
    requires |scores| == 9 && i <= 9
    ensures var r := Fold(b, scores, isMaximizing, i, best);
      (isMaximizing ==> r >= best && forall j: Index :: i <= j && b[j] == Empty ==> scores[j] <= r)
      && (!isMaximizing ==> r <= best && forall j: Index :: i <= j && b[j] == Empty ==> scores[j] >= r)
      && (r == best || exists j: Index :: i <= j && b[j] == Empty && scores[j] == r)
    decreases 9 - i
  {
    if i < 9 {
      if b[i] == Empty {
        FoldIsBest(b, scores, isMaximizing, i + 1, Better(isMaximizing, scores[i], best));
      } else {
        FoldIsBest(b, scores, isMaximizing, i + 1, best);
      }
    }
  }

  /** On a board still in play, the maximising value is the largest value of
      O's moves and the minimising value the smallest value of X's moves, and
      some move attains it. */
  lemma MinimaxIsBestMove(b: Board, isMaximizing: bool)
    requires Evaluate(b).None?
    ensures isMaximizing ==> forall j: Index :: b[j] == Empty ==> Child(b, true, j) <= MinimaxValue(b, true)
    ensures !isMaximizing ==> forall j: Index :: b[j] == Empty ==> Child(b, false, j) >= MinimaxValue(b, false)
    ensures exists j: Index :: b[j] == Empty && Child(b, isMaximizing, j) == MinimaxValue(b, isMaximizing)
  {
    var scores := ChildScores(b, isMaximizing);
    MinimaxLoopIsFold(b, isMaximizing, 0, Start(isMaximizing));
    FoldIsBest(b, scores, isMaximizing, 0, Start(isMaximizing));
  }

  /** minimax, searching by writing marks into the cells and clearing them again. */
  method Minimax(cells: array<Cell>, isMaximizing: bool) returns (score: int)
    requires cells.Length == 9
    modifies cells
    ensures cells[..] == old(cells[..])
    ensures score == MinimaxValue(old(cells[..]), isMaximizing)
    decreases Count(cells[..], Empty)
  {
    var evaluation := Evaluate(cells[..]);
    if evaluation.Some? {
      return evaluation.value;
    }
    ghost var b: Board := cells[..];
    var bestScore := Start(isMaximizing);
    for i := 0 to 9
      invariant cells[..] == b
      invariant IsScore(bestScore) || bestScore == Start(isMaximizing)
      invariant MinimaxLoop(b, isMaximizing, i, bestScore) == MinimaxValue(b, isMaximizing)
    {
      if cells[i] == Empty {
        cells[i] := Mover(isMaximizing);
        assert cells[..] == b[i := Mover(isMaximizing)];
        CountUpdate(b, i, Mover(isMaximizing));
        var moveScore := Minimax(cells, !isMaximizing);
        cells[i] := Empty;
        assert cells[..] == b;
        bestScore := Better(isMaximizing, moveScore, bestScore);
      }
    }
    score := bestScore;
  }

  /** The cell bestMove chooses: if any, an empty one. */
  function BestMoveChoice(b: Board): (r: Option<Index>)
    ensures r.Some? ==> b[r.value] == Empty
  {
    BestMoveLoop(b, ChildScores(b, true), 0, MinusInfinity, None)
  }

  /** The loop of bestMove from cell i on, with its running best score and
      move; scores[i] is what minimax(false) returns after O plays in cell i. */
  function BestMoveLoop(b: Board, scores: seq<int>, i: nat, bestScore: int, move: Option<Index>): (r: Option<Index>)
    requires |scores| == 9 && i <= 9
    ensures r == move || (r.Some? && i <= r.value && b[r.value] == Empty && scores[r.value] > bestScore)
    decreases 9 - i
  {
    if i == 9 then move
    else if b[i] == Empty && scores[i] > bestScore then BestMoveLoop(b, scores, i + 1, scores[i], Some(i as Index))
    else BestMoveLoop(b, scores, i + 1, bestScore, move)
  }

  /** What bestMove has found after scanning the cells below i: nothing while
      no empty cell was seen, else the first empty cell of largest score. */
  predicate BestSoFar(b: Board, scores: seq<int>, i: nat, bestScore: int, move: Option<Index>)
    requires |scores| == 9 && i <= 9
  {
    match move
    case None => forall j: Index :: j < i ==> b[j] != Empty
    case Some(k) =>
      k < i && b[k] == Empty && bestScore == scores[k]
      && (forall j: Index :: j < i && b[j] == Empty ==> scores[j] <= bestScore)
      && (forall j: Index :: j < k && b[j] == Empty ==> scores[j] < bestScore)
  }

  lemma {:induction false} BestMoveLoopIsFirstMaximum(b: Board, scores: seq<int>, i: nat, bestScore: int, move: Option<Index>)
    requires |scores| == 9 && i <= 9
    requires forall j: Index :: b[j] == Empty ==> scores[j] > MinusInfinity
    requires move.None? ==> bestScore == MinusInfinity
    requires BestSoFar(b, scores, i, bestScore, move)
    ensures var r := BestMoveLoop(b, scores, i, bestScore, move);
      BestSoFar(b, scores, 9, if r.Some? then scores[r.value] else MinusInfinity, r)
    decreases 9 - i
  {
    if i < 9 {
      if b[i] == Empty && scores[i] > bestScore {
        BestMoveLoopIsFirstMaximum(b, scores, i + 1, scores[i], Some(i as Index));
      } else {
        BestMoveLoopIsFirstMaximum(b, scores, i + 1, bestScore, move);
      }
    }
  }

  /** bestMove returns nothing only on a full board; otherwise it returns an
      empty cell whose O move is worth no less than any other O move, and no
      empty cell before it is worth as much. */
  lemma BestMoveIsFirstMaximum(b: Board)
    ensures BestMoveChoice(b).None? <==> Full(b)
    ensures BestMoveChoice(b).Some? ==>
      var k := BestMoveChoice(b).value;
      b[k] == Empty
      && (forall j: Index :: b[j] == Empty ==> Child(b, true, j) <= Child(b, true, k))
      && (forall j: Index :: j < k && b[j] == Empty ==> Child(b, true, j) < Child(b, true, k))
  {
    var scores := ChildScores(b, true);
    BestMoveLoopIsFirstMaximum(b, scores, 0, MinusInfinity, None);
  }

  /** bestMove, trying O in each empty cell and clearing it again. */
  method BestMove(cells: array<Cell>) returns (move: Option<Index>)
    requires cells.Length == 9
    modifies cells
    ensures cells[..] == old(cells[..])
    ensures move == BestMoveChoice(old(cells[..]))
  {
    ghost var b: Board := cells[..];
    ghost var scores := ChildScores(b, true);
    var bestScore := MinusInfinity;
    move := None;
    for i := 0 to 9
      invariant cells[..] == b
      invariant BestMoveLoop(b, scores, i, bestScore, move) == BestMoveChoice(b)
    {
      if cells[i] == Empty {
        cells[i] := O;
        assert cells[..] == b[i := O];
        var score := Minimax(cells, false);
        cells[i] := Empty;
        assert cells[..] == b;
        assert score == scores[i];
        if score > bestScore {
          bestScore := score;
          move := Some(i);
        }
      }
    }
  }

  /** An immediate win for O scores -10, so bestMove does not take it while
      some other move is worth 0 or +10. */
  lemma ImmediateWinNotPreferred(b: Board, j: Index)
    requires b[j] == Empty && Child(b, true, j) >= 0
    ensures BestMoveChoice(b).Some?
    ensures Evaluate(b[BestMoveChoice(b).value := O]) != Some(-10)
  {
    BestMoveIsFirstMaximum(b);
    var k := BestMoveChoice(b).value;
    assert Child(b, true, j) <= Child(b, true, k);
    assert MinimaxValue(b[k := O], false) >= 0;
  }

  /** On a board where no line is owned yet, the same condition keeps
      bestMove from completing an O line at all. */
  lemma NoOLineWhenNotPreferred(b: Board, j: Index)
    requires NoLine(b) && b[j] == Empty && Child(b, true, j) >= 0
    ensures BestMoveChoice(b).Some?
    ensures !CheckWin(b[BestMoveChoice(b).value := O], O)
  {
    ImmediateWinNotPreferred(b, j);
    NewOLineScoresMinusTen(b, BestMoveChoice(b).value);
  }

  /** When no line is owned, an O move that completes a line scores -10: a
      line through the new O is O's, and an X line would have been there before. */
  lemma NewOLineScoresMinusTen(b: Board, k: Index)
    requires NoLine(b) && b[k] == Empty
    ensures CheckWin(b[k := O], O) ==> Evaluate(b[k := O]) == Some(-10)
  {
    var after := b[k := O];
    if CheckWin(after, O) {
      OwnedLineScoresWin(after, O);
      EvaluateIsFirstOwnedLine(after);
    }
  }

  /** With a single empty cell left, a board still in play is worth the
      move into that cell, for either side. */
  lemma LastCellDecides(b: Board, isMaximizing: bool, i: Index)
    requires Evaluate(b).None? && b[i] == Empty
    requires forall j: Index :: b[j] == Empty ==> j == i
    ensures MinimaxValue(b, isMaximizing) == Child(b, isMaximizing, i)
  {
    MinimaxIsBestMove(b, isMaximizing);
  }

  /** On the board O O _ / X X _ / X O X, O could complete the top row in
      cell 2, but that scores -10; in cell 5 it lets X complete the diagonal
      2-4-6, which scores +10, and that is the cell bestMove takes. */
  lemma BestMoveDeclinesImmediateWin()
    ensures var b: Board := [O, O, Empty, X, X, Empty, X, O, X];
      Evaluate(b[2 := O]) == Some(-10) && BestMoveChoice(b) == Some(5)
  {
    var b: Board := [O, O, Empty, X, X, Empty, X, O, X];
    ExampleEvaluations();
    BlockedExampleValue();
    assert Child(b, true, 2) == -10;
    assert Child(b, true, 5) == 10;
    BestMoveIsFirstMaximum(b);
    var k := BestMoveChoice(b).value;
    assert k == 2 || k == 5;
  }

  /** After O blocks in cell 5, X's only move completes the diagonal. */
  lemma BlockedExampleValue()
    ensures var b: Board := [O, O, Empty, X, X, Empty, X, O, X];
      MinimaxValue(b[5 := O], false) == 10
  {
    var b: Board := [O, O, Empty, X, X, Empty, X, O, X];
    var block := b[5 := O];
    ExampleEvaluations();
    LastCellDecides(block, false, 2);
  }

  /** The evaluations the example above rests on: O's top row, no line yet
      after O blocks in cell 5, and X's diagonal once X fills cell 2. */
  lemma ExampleEvaluations()
    ensures var b: Board := [O, O, Empty, X, X, Empty, X, O, X];
      Evaluate(b[2 := O]) == Some(-10)
      && Evaluate(b[5 := O]) == None
      && Evaluate(b[5 := O][2 := X]) == Some(10)
  {
    var b: Board := [O, O, Empty, X, X, Empty, X, O, X];
    var win, block, last := b[2 := O], b[5 := O], b[5 := O][2 := X];
    assert Owned(win, Lines[0]);
    assert !Full(block) by { assert block[2] == Empty; }
    assert EvaluateFrom(block, 8) == None;
    assert EvaluateFrom(block, 7) == None;
    assert EvaluateFrom(block, 6) == None;
    assert EvaluateFrom(block, 5) == None;
    assert EvaluateFrom(block, 4) == None;
    assert EvaluateFrom(block, 3) == None;
    assert EvaluateFrom(block, 2) == None;
    assert EvaluateFrom(block, 1) == None;
    assert Owned(last, Lines[7]);
    assert EvaluateFrom(last, 7) == Some(10);
    assert EvaluateFrom(last, 6) == Some(10);
    assert EvaluateFrom(last, 5) == Some(10);
    assert EvaluateFrom(last, 4) == Some(10);
    assert EvaluateFrom(last, 3) == Some(10);
    assert EvaluateFrom(last, 2) == Some(10);
    assert EvaluateFrom(last, 1) == Some(10);
  }
}
