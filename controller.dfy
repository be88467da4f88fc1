/** The game controller: the module-level state of the page (current player,
    difficulty, the three tallies and whether the cells accept clicks) and the
    handlers that change it: a click on a cell, the computer's reply, restart,
    new game and the difficulty selector. */
module Controller {
  import opened Boards
  import opened Strategies
  import opened Search

  /** The values of the difficulty selector. As written, 'easy' runs the
      exhaustive search and 'hard' the random pick. */
  datatype Difficulty = Easy | Medium | Hard

  /** The move aiMove makes for a difficulty: bestMove for 'easy', mediumMove
      for 'medium', randomMove for 'hard'. */
  function ChooseMove(difficulty: Difficulty, b: Board, d: UnitDraw): (r: Option<Index>)
    ensures r.None? <==> Full(b)
    ensures r.Some? ==> b[r.value] == Empty
  {
    BestMoveIsFirstMaximum(b);
    match difficulty
    case Easy => BestMoveChoice(b)
    case Medium => MediumMove(b, d)
    case Hard => RandomMove(b, d)
  }

  /** The mark counts of play alternating from an empty board: X has made as
      many moves as O, or one more. While the person may click on a board
      with room left, the counts are equal; while the computer's reply is due
      (O to move, input enabled), X is one ahead and a cell is free. */
  ghost predicate Balanced(b: Board, currentPlayer: Side, inputEnabled: bool)
  {
    var nx := Count(b, X);
    var no := Count(b, O);
    (nx == no || nx == no + 1)
    && (currentPlayer == X && inputEnabled && !Full(b) ==> nx == no)
    && (currentPlayer == O && inputEnabled ==> nx == no + 1 && !Full(b))
  }

  /** A click that places X keeps the counts balanced, whichever of the three
      outcomes follows (X's win disables input; a draw keeps X to move; otherwise O is to move). */
  lemma ClickKeepsBalance(b: Board, i: Index)
    requires Balanced(b, X, true) && b[i] == Empty
    ensures var after := b[i := X];
      Balanced(after, if CheckWin(after, X) || Full(after) then X else O, !CheckWin(after, X))
  {
    CountUpdate(b, i, X);
  }

  /** The computer's reply in an empty cell, when it is due, keeps the counts
      balanced, and the board is never full after it (an odd number of cells
      stays empty), so the draw branch of aiMove does not occur in play. */
  lemma ReplyKeepsBalance(b: Board, i: Index)
    requires Balanced(b, O, true) && b[i] == Empty
    ensures var after := b[i := O];
      Balanced(after, if CheckWin(after, O) || Full(after) then O else X, !CheckWin(after, O))
      && !Full(after)
  {
    var after := b[i := O];
    CountUpdate(b, i, O);
    CountTotal(after);
  }

  class Game {
    /** The nine cell elements of the page; their contents change, the cells do not. */
    const cells: array<Cell>
    var currentPlayer: Side
    var difficulty: Difficulty
    var xWins: nat
    var oWins: nat
    var draws: nat
    /** Whether the cells have their click listener. */
    var inputEnabled: bool

    ghost predicate Valid()
    {
      cells.Length == 9
    }

    /** The board the cells show. */
    ghost function Cells(): Board
      reads cells
      requires Valid()
    {
      cells[..]
    }

    /** The cells and turn state are those of play alternating from an empty board. */
    ghost predicate Consistent()
      reads this, cells
      requires Valid()
    {
      Balanced(Cells(), currentPlayer, inputEnabled)
    }

    /** The page as loaded: empty cells, X to move, 'easy' selected, all
        tallies zero and the click listeners attached. */
    constructor ()
      ensures Valid() && fresh(cells)
      ensures Cells() == EmptyBoard && currentPlayer == X && difficulty == Easy
      ensures xWins == 0 && oWins == 0 && draws == 0 && inputEnabled
      ensures Consistent()
    {
      cells := new Cell[9](_ => Empty);
      currentPlayer := X;
      difficulty := Easy;
      xWins, oWins, draws := 0, 0, 0;
      inputEnabled := true;
      new;
      assert Cells() == EmptyBoard;
    }

    /** The change handler of the difficulty selector. */
    method SetDifficulty(d: Difficulty)
      modifies this
      ensures difficulty == d
      ensures currentPlayer == old(currentPlayer) && inputEnabled == old(inputEnabled)
      ensures xWins == old(xWins) && oWins == old(oWins) && draws == old(draws)
    {
      difficulty := d;
    }

    /** handleClick on cell i. Nothing happens when the cells have no
        listener, the cell is taken or it is O's turn. Otherwise X is placed
        there, and then exactly one of: X's win is tallied and input is
        disabled; a full board is tallied as a draw; or the turn passes to O,
        whose reply is the separate step AiMove. */
    method HandleClick(i: Index)
      requires Valid()
      modifies this, cells
      ensures Valid()
      ensures difficulty == old(difficulty)
      ensures !old(inputEnabled) || old(cells[i]) != Empty || old(currentPlayer) == O ==>
        unchanged(this) && Cells() == old(Cells())
      ensures old(inputEnabled) && old(cells[i]) == Empty && old(currentPlayer) == X ==>
        Cells() == old(Cells())[i := X]
        && oWins == old(oWins)
        && if CheckWin(Cells(), X) then
             xWins == old(xWins) + 1 && draws == old(draws) && !inputEnabled && currentPlayer == X
           else if Full(Cells()) then
             xWins == old(xWins) && draws == old(draws) + 1 && inputEnabled && currentPlayer == X
           else
             xWins == old(xWins) && draws == old(draws) && inputEnabled && currentPlayer == O
      ensures old(Consistent()) ==> Consistent()
    {
      if !inputEnabled {
        return;
      }
      if cells[i] != Empty || currentPlayer == O {
        return;
      }
      ghost var before := Cells();
      // The guard leaves X as the current player, so a win here is X's.
      cells[i] := currentPlayer;
      assert Cells() == before[i := X];
      if old(Consistent()) {
        ClickKeepsBalance(before, i);
      }
      if CheckWin(cells[..], currentPlayer) {
        xWins := xWins + 1;
        inputEnabled := false;
      } else if Full(cells[..]) {
        draws := draws + 1;
      } else {
        currentPlayer := O;
      }
    }

    /** The switch of aiMove on the difficulty: the strategy for the current
        difficulty picks the move; the cells are as they were. */
    method SelectMove(d: UnitDraw) returns (move: Option<Index>)
      requires Valid()
      modifies cells
      ensures Cells() == old(Cells())
      ensures move == ChooseMove(difficulty, Cells(), d)
    {
      match difficulty
      case Easy => move := BestMove(cells);
      case Medium => move := MediumMove(cells[..], d);
      case Hard => move := RandomMove(cells[..], d);
    }

    /** aiMove: the strategy for the current difficulty picks a cell and O is
        placed there, then exactly one of: O's win is tallied and input is
        disabled; a full board is tallied as a draw; or the turn passes back
        to X. Nothing happens when no move is produced. The draw d stands for
        the value of Math.random() the random pick would use. */
    method AiMove(d: UnitDraw)
      requires Valid()
      modifies this, cells
      ensures Valid()
      ensures difficulty == old(difficulty) && xWins == old(xWins)
      ensures var move := ChooseMove(old(difficulty), old(Cells()), d);
        (move.None? ==> unchanged(this) && Cells() == old(Cells()))
        && (move.Some? ==>
          Cells() == old(Cells())[move.value := O]
          && if CheckWin(Cells(), O) then
               oWins == old(oWins) + 1 && draws == old(draws) && !inputEnabled && currentPlayer == old(currentPlayer)
             else if Full(Cells()) then
               oWins == old(oWins) && draws == old(draws) + 1 && inputEnabled == old(inputEnabled) && currentPlayer == old(currentPlayer)
             else
               oWins == old(oWins) && draws == old(draws) && inputEnabled == old(inputEnabled) && currentPlayer == X)
      ensures old(Consistent()) && old(currentPlayer) == O && old(inputEnabled) ==>
        Consistent() && Cells() != old(Cells()) && Count(Cells(), O) == old(Count(Cells(), O)) + 1
        && draws == old(draws)
    {
      ghost var before := Cells();
      var move := SelectMove(d);
      if move.Some? {
        cells[move.value] := O;
        assert Cells() == before[move.value := O];
        if old(Consistent()) && old(currentPlayer) == O && old(inputEnabled) {
          ReplyKeepsBalance(before, move.value);
          CountUpdate(before, move.value, O);
        }
        if CheckWin(cells[..], O) {
          oWins := oWins + 1;
          inputEnabled := false;
        } else if Full(cells[..]) {
          draws := draws + 1;
        } else {
          currentPlayer := X;
        }
      }
    }

    /** restartGame: clears the nine cells, gives the turn to X and attaches
        the click listeners again; the tallies and the difficulty stay. */
    method RestartGame()
      requires Valid()
      modifies this, cells
      ensures Valid()
      ensures Cells() == EmptyBoard && currentPlayer == X && inputEnabled
      ensures xWins == old(xWins) && oWins == old(oWins) && draws == old(draws)
      ensures difficulty == old(difficulty)
      ensures Consistent()
    {
      for i := 0 to 9
        modifies cells
        invariant forall j :: 0 <= j < i ==> cells[j] == Empty
      {
        cells[i] := Empty;
      }
      assert Cells() == EmptyBoard;
      currentPlayer := X;
      inputEnabled := true;
    }

    /** newGame: zeroes the three tallies and restarts. */
    method NewGame()
      requires Valid()
      modifies this, cells
      ensures Valid()
      ensures Cells() == EmptyBoard && currentPlayer == X && inputEnabled
      ensures xWins == 0 && oWins == 0 && draws == 0
      ensures difficulty == old(difficulty)
      ensures Consistent()
    {
      xWins, oWins, draws := 0, 0, 0;
      RestartGame();
    }
  }
}
