/** The two cheap computer strategies: the heuristic (mediumMove, built on
    findWinningMove and findBlockingMove) and the random pick (randomMove). */
module Strategies {
  import opened Boards

  /** How many of the three cells of l show c. */
  function Marks(b: Board, l: Line, c: Cell): nat
  {
    (if b[l.a] == c then 1 else 0) + (if b[l.b] == c then 1 else 0) + (if b[l.c] == c then 1 else 0)
  }

  /** Line l holds exactly two of p's marks and one empty cell. */
  predicate Threat(b: Board, l: Line, p: Side)
  {
    Marks(b, l, p) == 2 && Marks(b, l, Empty) == 1
  }

  /** Line k is a threat for p and no earlier line of the table is. */
  predicate FirstThreat(b: Board, p: Side, k: nat)
    requires k < |Lines|
  {
    Threat(b, Lines[k], p) && forall j :: 0 <= j < k ==> !Threat(b, Lines[j], p)
  }

  /** No line of the table is a threat for p. */
  predicate NoThreat(b: Board, p: Side)
  {
    forall k :: 0 <= k < |Lines| ==> !Threat(b, Lines[k], p)
  }

  /** Cell i is one of the three cells of l. */
  predicate OnLine(i: Index, l: Line)
  {
    i == l.a || i == l.b || i == l.c
  }

  /** The three tests findWinningMove makes on one line, in its order: the
      third cell, then the first, then the second. */
  function LineGap(b: Board, l: Line, p: Side): (r: Option<Index>)
    ensures r.Some? <==> Threat(b, l, p)
    ensures r.Some? ==> OnLine(r.value, l) && b[r.value] == Empty && LineOf(b[r.value := p], l, p)
  {
    if b[l.a] == p && b[l.b] == p && b[l.c] == Empty then Some(l.c)
    else if b[l.b] == p && b[l.c] == p && b[l.a] == Empty then Some(l.a)
    else if b[l.a] == p && b[l.c] == p && b[l.b] == Empty then Some(l.b)
    else None
  }

  /** findWinningMove: the empty cell of the first line in table order that
      holds two of p's marks and one empty cell; placing p there gives p a
      line. None when no line is such a threat. */
  function FindWinningMove(b: Board, p: Side): (r: Option<Index>)
    ensures r.Some? ==> b[r.value] == Empty && CheckWin(b[r.value := p], p)
    ensures r.Some? ==> exists k :: 0 <= k < |Lines| && FirstThreat(b, p, k) && OnLine(r.value, Lines[k])
    ensures r.None? <==> NoThreat(b, p)
  {
    FindFrom(b, p, 0)
  }

  /** The scan of findWinningMove from line k on, no earlier line being a threat. */
  function FindFrom(b: Board, p: Side, k: nat): (r: Option<Index>)
    requires k <= |Lines|
    requires forall j :: 0 <= j < k ==> !Threat(b, Lines[j], p)
    ensures r.Some? ==> b[r.value] == Empty && CheckWin(b[r.value := p], p)
    ensures r.Some? ==> exists j :: k <= j < |Lines| && FirstThreat(b, p, j) && OnLine(r.value, Lines[j])
    ensures r.None? <==> NoThreat(b, p)
    decreases |Lines| - k
  {
    if k == |Lines| then None
    else
      match LineGap(b, Lines[k], p)
      case Some(i) =>
        assert FirstThreat(b, p, k);
        assert LineOf(b[i := p], Lines[k], p);
        Some(i)
      case None => FindFrom(b, p, k + 1)
  }

  /** findBlockingMove: the cell where the opponent would complete the first
      threatened line of the table, which is where O must play to block it. */
  function FindBlockingMove(b: Board, opponent: Side): (r: Option<Index>)
    ensures r.Some? ==> b[r.value] == Empty && CheckWin(b[r.value := opponent], opponent)
    ensures r.Some? ==> exists k :: 0 <= k < |Lines| && FirstThreat(b, opponent, k) && OnLine(r.value, Lines[k])
    ensures r.None? <==> NoThreat(b, opponent)
  {
    FindWinningMove(b, opponent)
  }

  /** When p holds no line yet, findWinningMove finds nothing exactly when no
      empty cell would give p a line. */
  lemma NoWinningMoveIffNoWinningCell(b: Board, p: Side)
    requires !CheckWin(b, p)
    ensures FindWinningMove(b, p).None? <==> forall i: Index :: b[i] == Empty ==> !CheckWin(b[i := p], p)
  {
    if FindWinningMove(b, p).None? {
      forall i: Index | b[i] == Empty
        ensures !CheckWin(b[i := p], p)
      {
        if CheckWin(b[i := p], p) {
          var k :| 0 <= k < |Lines| && LineOf(b[i := p], Lines[k], p);
          WinningCellMakesThreat(b, i, p, k);
        }
      }
    }
  }

  /** A cell that completes line k for p, on a board where p holds no line,
      is the gap of a threat on line k. */
  lemma WinningCellMakesThreat(b: Board, i: Index, p: Side, k: nat)
    requires k < |Lines| && b[i] == Empty && !CheckWin(b, p)
    requires LineOf(b[i := p], Lines[k], p)
    ensures Threat(b, Lines[k], p)
  {
    var l := Lines[k];
    assert l.a != l.b && l.b != l.c && l.a != l.c;
  }

  /** The empty cells in board order (the filter in randomMove). */
  function Empties(b: Board): (r: seq<Index>)
    ensures forall k :: 0 <= k < |r| ==> b[r[k]] == Empty
    ensures forall i: Index :: b[i] == Empty ==> i in r
    ensures forall k, m :: 0 <= k < m < |r| ==> r[k] < r[m]
    ensures |r| == 0 <==> Full(b)
  {
    EmptiesFrom(b, 0)
  }

  /** The empty cells from position i on. */
  function EmptiesFrom(b: Board, i: nat): (r: seq<Index>)
    requires i <= 9
    ensures forall k :: 0 <= k < |r| ==> i <= r[k] && b[r[k]] == Empty
    ensures forall j: Index :: i <= j && b[j] == Empty ==> j in r
    ensures forall k, m :: 0 <= k < m < |r| ==> r[k] < r[m]
    decreases 9 - i
  {
    if i == 9 then []
    else if b[i] == Empty then [i as Index] + EmptiesFrom(b, i + 1)
    else EmptiesFrom(b, i + 1)
  }

  /** A value of Math.random(), a number in [0, 1), written as the fraction num/den. */
  datatype Draw = Draw(num: nat, den: nat)
  type UnitDraw = d: Draw | d.num < d.den witness Draw(0, 1)

  /** Math.floor(Math.random() * n) for the draw d. */
  function Pick(d: UnitDraw, n: nat): (k: nat)
    requires n > 0
    ensures k < n
  {
    PickBelow(d, n);
    d.num * n / d.den
  }

  lemma PickBelow(d: UnitDraw, n: nat)
    requires n > 0
    ensures d.num * n / d.den < n
  {
    var q := d.num * n / d.den;
    assert d.num * n < d.den * n;
    assert q * d.den <= d.num * n;
  }

  /** The draw k/n picks the k-th of n items. */
  lemma PickExact(k: nat, n: nat)
    requires k < n
    ensures Pick(Draw(k, n), n) == k
  {
    var q := k * n / n;
    assert q * n <= k * n < (q + 1) * n;
  }

  /** randomMove: None when no cell is empty, otherwise the empty cell the
      draw selects. */
  function RandomMove(b: Board, d: UnitDraw): (r: Option<Index>)
    ensures r.None? <==> Full(b)
    ensures r.Some? ==> b[r.value] == Empty
  {
    var empties := Empties(b);
    if |empties| == 0 then None else Some(empties[Pick(d, |empties|)])
  }

  /** Every empty cell is the random move for some draw. */
  lemma RandomMoveReachesEveryEmptyCell(b: Board, i: Index)
    requires b[i] == Empty
    ensures exists d: UnitDraw :: RandomMove(b, d) == Some(i)
  {
    var empties := Empties(b);
    var k :| 0 <= k < |empties| && empties[k] == i;
    PickExact(k, |empties|);
    var d: UnitDraw := Draw(k, |empties|);
    assert RandomMove(b, d) == Some(i);
  }

  /** mediumMove: take a win for O if a line offers one, else block a line X
      could complete, else move at random. */
  function MediumMove(b: Board, d: UnitDraw): (r: Option<Index>)
    ensures r.None? <==> Full(b)
    ensures r.Some? ==> b[r.value] == Empty
    ensures !NoThreat(b, O) ==> r.Some? && CheckWin(b[r.value := O], O) && r == FindWinningMove(b, O)
    ensures NoThreat(b, O) && !NoThreat(b, X) ==> r.Some? && CheckWin(b[r.value := X], X) && r == FindWinningMove(b, X)
    ensures NoThreat(b, O) && NoThreat(b, X) ==> r == RandomMove(b, d)
  {
    var winningMove := match FindWinningMove(b, O)
      case Some(i) => Some(i)
      case None => FindBlockingMove(b, X);
    if winningMove.Some? then winningMove else RandomMove(b, d)
  }

  /** O O _ / X X _ / _ _ _ with O to move: the win in cell 2 comes before the block in cell 5. */
  lemma MediumTakesWinBeforeBlock(d: UnitDraw)
    ensures MediumMove([O, O, Empty, X, X, Empty, Empty, Empty, Empty], d) == Some(2)
  {
    var b: Board := [O, O, Empty, X, X, Empty, Empty, Empty, Empty];
    assert LineGap(b, Lines[0], O) == Some(2);
  }

  /** X X _ / O _ _ / _ _ _ with O to move: no win for O, so O blocks in cell 2. */
  lemma MediumBlocksWhenNoWin(d: UnitDraw)
    ensures MediumMove([X, X, Empty, O, Empty, Empty, Empty, Empty, Empty], d) == Some(2)
  {
    var b: Board := [X, X, Empty, O, Empty, Empty, Empty, Empty, Empty];
    assert NoThreat(b, O) by {
      forall k | 0 <= k < |Lines| ensures !Threat(b, Lines[k], O) {
        assert Marks(b, Lines[k], O) <= 1;
      }
    }
    assert LineGap(b, Lines[0], X) == Some(2);
  }
}
