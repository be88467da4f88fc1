/** The board of the game: nine cells, the fixed table of eight winning lines,
    the outcome evaluator (evaluateBoard) and the win test (checkWin). */
module Boards {

  datatype Option<T> = None | Some(value: T)

  /** What a cell shows: nothing, or the mark of one of the two players. */
  datatype Cell = Empty | X | O

  /** A player's mark. X is the person at the board, O the computer. */
  type Side = c: Cell | c != Empty witness X

  /** A cell position, numbered row by row from the top-left corner. */
  type Index = i: int | 0 <= i < 9

  /** The nine cells in row-major order. */
  type Board = b: seq<Cell> | |b| == 9 witness [Empty, Empty, Empty, Empty, Empty, Empty, Empty, Empty, Empty]

  const EmptyBoard: Board := [Empty, Empty, Empty, Empty, Empty, Empty, Empty, Empty, Empty]

  /** Three cell positions that win when one player holds all of them. */
  datatype Line = Line(a: Index, b: Index, c: Index)

  /** The table of winning lines, in the order the engine scans it:
      the three rows, the three columns, then the two diagonals. */
  const Lines: seq<Line> := [
    Line(0, 1, 2), Line(3, 4, 5), Line(6, 7, 8),
    Line(0, 3, 6), Line(1, 4, 7), Line(2, 5, 8),
    Line(0, 4, 8), Line(2, 4, 6)
  ]

  /** The table holds the three rows top to bottom, the three columns left to
      right, then the diagonal from the top-left and the one from the
      top-right, each listed in increasing cell order. */
  lemma LinesAreRowsColumnsDiagonals()
    ensures |Lines| == 8
    ensures forall r :: 0 <= r < 3 ==> Lines[r] == Line(3 * r, 3 * r + 1, 3 * r + 2)
    ensures forall k :: 3 <= k < 6 ==> Lines[k] == Line(k - 3, k, k + 3)
    ensures Lines[6] == Line(0, 4, 8) && Lines[7] == Line(2, 4, 6)
    ensures forall k :: 0 <= k < |Lines| ==> Lines[k].a < Lines[k].b < Lines[k].c
  {
  }

  /** Player p holds all three cells of l. */
  predicate LineOf(b: Board, l: Line, p: Side)
  {
    b[l.a] == p && b[l.b] == p && b[l.c] == p
  }

  /** The three cells of l show the same mark and are not empty. */
  predicate Owned(b: Board, l: Line)
  {
    b[l.a] != Empty && b[l.a] == b[l.b] && b[l.a] == b[l.c]
  }

  /** Line k is owned and is the first owned line of the table. */
  predicate FirstOwned(b: Board, k: nat)
    requires k < |Lines|
  {
    Owned(b, Lines[k]) && forall j :: 0 <= j < k ==> !Owned(b, Lines[j])
  }

  /** No line of the table is owned. */
  predicate NoLine(b: Board)
  {
    forall k :: 0 <= k < |Lines| ==> !Owned(b, Lines[k])
  }

  /** Every cell has a mark. */
  predicate Full(b: Board)
  {
    forall i :: 0 <= i < 9 ==> b[i] != Empty
  }

  /** The score of a line owned by p: +10 for X, -10 for O. */
  function WinScore(p: Side): int
  {
    if p == X then 10 else -10
  }

  /** evaluateBoard: the owner of the first owned line decides (+10 for X,
      -10 for O); with no owned line, a full board is a draw (0) and any
      other board is still in play (None, the source's null). The lemma
      EvaluateIsFirstOwnedLine states this in full. */
  function Evaluate(b: Board): (r: Option<int>)
    ensures r == None || r == Some(0) || r == Some(10) || r == Some(-10)
    ensures r.None? ==> !Full(b)
  {
    EvaluateFrom(b, 0)
  }

  /** The scan of evaluateBoard from line k on. */
  function EvaluateFrom(b: Board, k: nat): (r: Option<int>)
    requires k <= |Lines|
    ensures r == None || r == Some(0) || r == Some(10) || r == Some(-10)
    ensures r.None? ==> !Full(b)
    decreases |Lines| - k
  {
    if k == |Lines| then
      if Full(b) then Some(0) else None
    else if Owned(b, Lines[k]) then
      Some(WinScore(b[Lines[k].a]))
    else
      EvaluateFrom(b, k + 1)
  }

  /** evaluateBoard scores the first owned line of the table for its owner,
      and without an owned line tells a full board (a draw) from one still in
      play. */
  lemma EvaluateIsFirstOwnedLine(b: Board)
    ensures Evaluate(b) == Some(10) <==> exists k :: 0 <= k < |Lines| && FirstOwned(b, k) && b[Lines[k].a] == X
    ensures Evaluate(b) == Some(-10) <==> exists k :: 0 <= k < |Lines| && FirstOwned(b, k) && b[Lines[k].a] == O
    ensures Evaluate(b) == Some(0) <==> NoLine(b) && Full(b)
    ensures Evaluate(b) == None <==> NoLine(b) && !Full(b)
  {
    EvaluateFromIsFirstOwnedLine(b, 0);
  }

  lemma {:induction false} EvaluateFromIsFirstOwnedLine(b: Board, k: nat)
    requires k <= |Lines|
    requires forall j :: 0 <= j < k ==> !Owned(b, Lines[j])
    ensures var r := EvaluateFrom(b, k);
      (r == Some(10) <==> exists j :: k <= j < |Lines| && FirstOwned(b, j) && b[Lines[j].a] == X)
      && (r == Some(-10) <==> exists j :: k <= j < |Lines| && FirstOwned(b, j) && b[Lines[j].a] == O)
      && (r == Some(0) <==> NoLine(b) && Full(b))
      && (r == None <==> NoLine(b) && !Full(b))
    decreases |Lines| - k
  {
    if k < |Lines| {
      if Owned(b, Lines[k]) {
        assert FirstOwned(b, k);
      } else {
        EvaluateFromIsFirstOwnedLine(b, k + 1);
      }
    }
  }

  /** checkWin: some line of the table is held entirely by p. */
  function CheckWin(b: Board, p: Side): (r: bool)
    ensures r <==> exists k :: 0 <= k < |Lines| && LineOf(b, Lines[k], p)
  {
    CheckWinFrom(b, p, 0)
  }

  /** The scan of checkWin (Array.prototype.some) from line k on. */
  function CheckWinFrom(b: Board, p: Side, k: nat): (r: bool)
    requires k <= |Lines|
    ensures r <==> exists j :: k <= j < |Lines| && LineOf(b, Lines[j], p)
    decreases |Lines| - k
  {
    k < |Lines| && (LineOf(b, Lines[k], p) || CheckWinFrom(b, p, k + 1))
  }

  /** A win score from evaluateBoard always comes with checkWin for that side,
      and a board on which either side holds a line never scores a draw or
      counts as still in play. */
  lemma EvaluateAgreesWithCheckWin(b: Board)
    ensures Evaluate(b) == Some(10) ==> CheckWin(b, X)
    ensures Evaluate(b) == Some(-10) ==> CheckWin(b, O)
    ensures CheckWin(b, X) || CheckWin(b, O) <==> Evaluate(b) == Some(10) || Evaluate(b) == Some(-10)
  {
    EvaluateIsFirstOwnedLine(b);
    if Evaluate(b) == Some(10) {
      var k :| 0 <= k < |Lines| && FirstOwned(b, k) && b[Lines[k].a] == X;
      assert LineOf(b, Lines[k], X);
    }
    if Evaluate(b) == Some(-10) {
      var k :| 0 <= k < |Lines| && FirstOwned(b, k) && b[Lines[k].a] == O;
      assert LineOf(b, Lines[k], O);
    }
    if CheckWin(b, X) {
      OwnedLineScoresWin(b, X);
    } else if CheckWin(b, O) {
      OwnedLineScoresWin(b, O);
    }
  }

  /** A board on which a player holds a line is scored as a win, full or not:
      in particular a full board with a line is not a draw. */
  lemma OwnedLineScoresWin(b: Board, p: Side)
    requires CheckWin(b, p)
    ensures Evaluate(b) == Some(10) || Evaluate(b) == Some(-10)
  {
    var k :| 0 <= k < |Lines| && LineOf(b, Lines[k], p);
    assert b[Lines[k].a] == p;
    assert Owned(b, Lines[k]);
    EvaluateIsFirstOwnedLine(b);
  }

  /** The number of cells of s that show c. */
  function Count(s: seq<Cell>, c: Cell): (n: nat)
    ensures n <= |s|
    ensures n == 0 <==> forall i :: 0 <= i < |s| ==> s[i] != c
  {
    if s == [] then 0
    else
      assert forall i :: 1 <= i < |s| ==> s[i] == s[1..][i - 1];
      (if s[0] == c then 1 else 0) + Count(s[1..], c)
  }

  /** Writing c over a cell that did not show it adds one c, removes one of
      what was there, and leaves the count of every other content alone. */
  lemma {:induction false} CountUpdate(s: seq<Cell>, i: nat, c: Cell)
    requires i < |s| && s[i] != c
    ensures Count(s[i := c], c) == Count(s, c) + 1
    ensures Count(s[i := c], s[i]) == Count(s, s[i]) - 1
    ensures forall d :: d != c && d != s[i] ==> Count(s[i := c], d) == Count(s, d)
  {
    var t := s[i := c];
    assert Count(t, c) == (if t[0] == c then 1 else 0) + Count(t[1..], c);
    if i == 0 {
      assert t[1..] == s[1..];
    } else {
      assert t[1..] == s[1..][i - 1 := c];
      CountUpdate(s[1..], i - 1, c);
    }
  }

  /** Every cell is empty, X or O. */
  lemma {:induction false} CountTotal(s: seq<Cell>)
    ensures Count(s, Empty) + Count(s, X) + Count(s, O) == |s|
  {
    if s != [] {
      CountTotal(s[1..]);
    }
  }
}
