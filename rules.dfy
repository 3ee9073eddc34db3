/**
 * The rules of the game on positions taken as values: the 3x3 grid, the win test,
 * the test for a free cell, and the exhaustive minimax score together with the
 * machine's choice of move. The imperative engine in module Game is proved to
 * compute exactly these functions.
 */
module Rules {
  import opened Symbols
  import opened Wrappers

  /** A position: three rows of three cells, addressed b[row][col]. */
  type Board = seq<seq<BoardChar>>

  /** A cell address. The Rust type holds two machine words; the parser only produces 0..2. */
  datatype Move = Move(row: nat, col: nat)

  predicate IsBoard(b: Board) {
    |b| == 3 && |b[0]| == 3 && |b[1]| == 3 && |b[2]| == 3
  }

  /** The grid of a newly created game. */
  const EmptyBoard: Board := [[Empty, Empty, Empty], [Empty, Empty, Empty], [Empty, Empty, Empty]]

  /** Two grids with the same nine cells are the same grid. */
  lemma BoardExtensionality(b1: Board, b2: Board)
    requires IsBoard(b1) && IsBoard(b2)
    requires forall i, j :: 0 <= i < 3 && 0 <= j < 3 ==> b1[i][j] == b2[i][j]
    ensures b1 == b2
  {
    assert b1[0] == b2[0];
    assert b1[1] == b2[1];
    assert b1[2] == b2[2];
  }

  /** The grid with cell (i, j) overwritten by c; no check that the cell was free. */
  function Place(b: Board, i: nat, j: nat, c: BoardChar): (r: Board)
    requires IsBoard(b) && i < 3 && j < 3
    ensures IsBoard(r) && r[i][j] == c
    ensures forall i', j' :: 0 <= i' < 3 && 0 <= j' < 3 && (i' != i || j' != j) ==> r[i'][j'] == b[i'][j']
  {
    b[i := b[i][j := c]]
  }

  /** Clearing a cell that was Empty before it was marked gives back the grid one started from. */
  lemma PlaceThenClear(b: Board, i: nat, j: nat, c: BoardChar)
    requires IsBoard(b) && i < 3 && j < 3 && b[i][j] == Empty
    ensures Place(Place(b, i, j, c), i, j, Empty) == b
  {
    BoardExtensionality(Place(Place(b, i, j, c), i, j, Empty), b);
  }

  // ---------------------------------------------------------------------------
  // Terminal positions

  predicate RowFilled(b: Board, row: nat, c: BoardChar)
    requires IsBoard(b) && row < 3
  {
    b[row][0] == c && b[row][1] == c && b[row][2] == c
  }

  predicate ColumnFilled(b: Board, col: nat, c: BoardChar)
    requires IsBoard(b) && col < 3
  {
    b[0][col] == c && b[1][col] == c && b[2][col] == c
  }

  /** c holds all three cells of some row, some column, or one of the two diagonals. */
  predicate Wins(b: Board, c: BoardChar)
    requires IsBoard(b)
  {
    || RowFilled(b, 0, c) || RowFilled(b, 1, c) || RowFilled(b, 2, c)
    || ColumnFilled(b, 0, c) || ColumnFilled(b, 1, c) || ColumnFilled(b, 2, c)
    || (b[0][0] == c && b[1][1] == c && b[2][2] == c)
    || (b[0][2] == c && b[1][1] == c && b[2][0] == c)
  }

  /** Some cell of the grid is still free. */
  predicate HasEmpty(b: Board)
    requires IsBoard(b)
  {
    exists i, j :: 0 <= i < 3 && 0 <= j < 3 && b[i][j] == Empty
  }

  function RowEmpties(r: seq<BoardChar>): nat
    requires |r| == 3
  {
    (if r[0] == Empty then 1 else 0) + (if r[1] == Empty then 1 else 0) + (if r[2] == Empty then 1 else 0)
  }

  /** The number of free cells: the measure that bounds the depth of the search. */
  function EmptyCount(b: Board): (n: nat)
    requires IsBoard(b)
    ensures n <= 9
  {
    RowEmpties(b[0]) + RowEmpties(b[1]) + RowEmpties(b[2])
  }

  /** Marking a free cell with a player's symbol uses up exactly one free cell. */
  lemma PlaceUsesOneCell(b: Board, i: nat, j: nat, c: BoardChar)
    requires IsBoard(b) && i < 3 && j < 3 && b[i][j] == Empty && c != Empty
    ensures EmptyCount(Place(b, i, j, c)) == EmptyCount(b) - 1
  {
    var r := Place(b, i, j, c);
    assert r[0][0] == b[0][0] || (i == 0 && j == 0);
  }

  // ---------------------------------------------------------------------------
  // Minimax

  function Max(x: int, y: int): int { if x >= y then x else y }

  function Min(x: int, y: int): int { if x <= y then x else y }

  /** The starting value of the running best at a search level: below every score
      for the maximizer (the machine), above every score for the minimizer. */
  function Initial(c: BoardChar, machine: BoardChar): int {
    if c == machine then -10 else 10
  }

  /** Cell (i', j') comes before cell (i, j) in row-major order, the order of the nested loops. */
  predicate Before(i': nat, j': nat, i: nat, j: nat) {
    i' < i || (i' == i && j' < j)
  }

  /** Some free cell at (i, j) or later in row-major order. */
  predicate EmptyFrom(b: Board, i: nat, j: nat)
    requires IsBoard(b)
  {
    exists i', j' :: 0 <= i' < 3 && 0 <= j' < 3 && !Before(i', j', i, j) && b[i'][j'] == Empty
  }

  /** The first cell is the start of row-major order: a free cell from there on is any free cell. */
  lemma EmptyFromStart(b: Board)
    requires IsBoard(b)
    ensures EmptyFrom(b, 0, 0) <==> HasEmpty(b)
  {
    if HasEmpty(b) {
      var i, j :| 0 <= i < 3 && 0 <= j < 3 && b[i][j] == Empty;
      assert !Before(i, j, 0, 0);
    }
  }

  /**
   * The value of position b when c is to move, seen from the machine: +1 if the
   * machine has a line, -1 if the player has one, 0 for a full grid, and otherwise
   * the best over all free cells of the value after c marks it, the best being the
   * maximum on the machine's turn and the minimum on the player's.
   */
  function Score(b: Board, c: BoardChar, machine: BoardChar, player: BoardChar): (r: int)
    requires IsBoard(b) && c != Empty
    ensures -1 <= r <= 1
    decreases EmptyCount(b), 1, 0, 0
  {
    if Wins(b, machine) then 1
    else if Wins(b, player) then -1
    else if !HasEmpty(b) then 0
    else
      EmptyFromStart(b);
      ScanMoves(b, c, machine, player, 0, 0, Initial(c, machine))
  }

  /** The nested loops of Score: fold the children's values, from cell (i, j) on in
      row-major order, into the running best; j == 3 is the end of row i. */
  function ScanMoves(b: Board, c: BoardChar, machine: BoardChar, player: BoardChar, i: nat, j: nat, best: int): (r: int)
    requires IsBoard(b) && c != Empty && i <= 3 && j <= 3
    ensures !EmptyFrom(b, i, j) ==> r == best
    ensures EmptyFrom(b, i, j) && best == Initial(c, machine) ==> -1 <= r <= 1
    ensures -1 <= best <= 1 ==> -1 <= r <= 1
    decreases EmptyCount(b), 0, 3 - i, 3 - j
  {
    if i == 3 then
      assert !EmptyFrom(b, i, j);
      best
    else if j == 3 then
      assert EmptyFrom(b, i, j) <==> EmptyFrom(b, i + 1, 0);
      ScanMoves(b, c, machine, player, i + 1, 0, best)
    else if b[i][j] == Empty then
      PlaceUsesOneCell(b, i, j, c);
      var v := Score(Place(b, i, j, c), ToOpposite(c), machine, player);
      ScanMoves(b, c, machine, player, i, j + 1, if c == machine then Max(best, v) else Min(best, v))
    else
      assert EmptyFrom(b, i, j) ==> EmptyFrom(b, i, j + 1);
      ScanMoves(b, c, machine, player, i, j + 1, best)
  }

  /** The value of the position after c marks the free cell (i, j), the opponent to move next. */
  function MoveScore(b: Board, c: BoardChar, machine: BoardChar, player: BoardChar, i: nat, j: nat): int
    requires IsBoard(b) && c != Empty && i < 3 && j < 3
  {
    Score(Place(b, i, j, c), ToOpposite(c), machine, player)
  }

  /** One step of the fold: folding cell (i, j) into the running best gives `next`, which
      is the running best combined with the cell's value v if the cell is Empty, and the
      running best unchanged otherwise. */
  lemma ScanMovesStep(b: Board, c: BoardChar, machine: BoardChar, player: BoardChar, i: nat, j: nat, best: int, v: int, next: int)
    requires IsBoard(b) && c != Empty && i < 3 && j < 3
    requires b[i][j] == Empty ==> v == MoveScore(b, c, machine, player, i, j)
    requires b[i][j] == Empty ==> next == if c == machine then Max(best, v) else Min(best, v)
    requires b[i][j] != Empty ==> next == best
    ensures ScanMoves(b, c, machine, player, i, j + 1, next) == ScanMoves(b, c, machine, player, i, j, best)
  {
  }

  /** On a finished grid the score is decided without search: a machine line gives +1,
      otherwise a player line gives -1, otherwise a full grid gives 0. */
  lemma ScoreOfFinishedPosition(b: Board, c: BoardChar, machine: BoardChar, player: BoardChar)
    requires IsBoard(b) && c != Empty
    ensures Wins(b, machine) ==> Score(b, c, machine, player) == 1
    ensures !Wins(b, machine) && Wins(b, player) ==> Score(b, c, machine, player) == -1
    ensures !Wins(b, machine) && !Wins(b, player) && !HasEmpty(b) ==> Score(b, c, machine, player) == 0
  {
  }

  /** What the fold over the cells from (i, j) on computes: a value no worse than the
      running best for the side to move, and no worse than any child it visits. */
  lemma {:induction false} ScanMovesBounds(b: Board, c: BoardChar, machine: BoardChar, player: BoardChar, i: nat, j: nat, best: int)
    requires IsBoard(b) && c != Empty && i <= 3 && j <= 3
    ensures c == machine ==> best <= ScanMoves(b, c, machine, player, i, j, best)
    ensures c != machine ==> ScanMoves(b, c, machine, player, i, j, best) <= best
    ensures forall i', j' :: 0 <= i' < 3 && 0 <= j' < 3 && !Before(i', j', i, j) && b[i'][j'] == Empty ==>
      if c == machine then MoveScore(b, c, machine, player, i', j') <= ScanMoves(b, c, machine, player, i, j, best)
      else ScanMoves(b, c, machine, player, i, j, best) <= MoveScore(b, c, machine, player, i', j')
    decreases 3 - i, 3 - j
  {
    if i == 3 {
    } else if j == 3 {
      ScanMovesBounds(b, c, machine, player, i + 1, 0, best);
    } else {
      var next := best;
      if b[i][j] == Empty {
        var v := MoveScore(b, c, machine, player, i, j);
        next := if c == machine then Max(best, v) else Min(best, v);
      }
      ScanMovesBounds(b, c, machine, player, i, j + 1, next);
    }
  }

  /** The fold from (i, j) on returns either the running best or the value of one of the children it visits. */
  lemma {:induction false} ScanMovesAttained(b: Board, c: BoardChar, machine: BoardChar, player: BoardChar, i: nat, j: nat, best: int)
    requires IsBoard(b) && c != Empty && i <= 3 && j <= 3
    ensures || ScanMoves(b, c, machine, player, i, j, best) == best
            || exists i', j' :: 0 <= i' < 3 && 0 <= j' < 3 && !Before(i', j', i, j) && b[i'][j'] == Empty &&
                 MoveScore(b, c, machine, player, i', j') == ScanMoves(b, c, machine, player, i, j, best)
    decreases 3 - i, 3 - j
  {
    if i == 3 {
    } else if j == 3 {
      ScanMovesAttained(b, c, machine, player, i + 1, 0, best);
    } else {
      var next := best;
      if b[i][j] == Empty {
        var v := MoveScore(b, c, machine, player, i, j);
        next := if c == machine then Max(best, v) else Min(best, v);
      }
      ScanMovesAttained(b, c, machine, player, i, j + 1, next);
    }
  }

  /** On an open grid the score is no worse, for the side to move, than the value after the
      mover marks any free cell: an upper bound of the children on the machine's turn, a
      lower bound on the player's. */
  lemma ScoreOfOpenPosition(b: Board, c: BoardChar, machine: BoardChar, player: BoardChar)
    requires IsBoard(b) && c != Empty
    requires !Wins(b, machine) && !Wins(b, player) && HasEmpty(b)
    ensures forall i, j :: 0 <= i < 3 && 0 <= j < 3 && b[i][j] == Empty ==>
      if c == machine then MoveScore(b, c, machine, player, i, j) <= Score(b, c, machine, player)
      else Score(b, c, machine, player) <= MoveScore(b, c, machine, player, i, j)
  {
    EmptyFromStart(b);
    assert Score(b, c, machine, player) == ScanMoves(b, c, machine, player, 0, 0, Initial(c, machine));
    ScanMovesBounds(b, c, machine, player, 0, 0, Initial(c, machine));
  }

  /** On an open grid the score is the value after the mover marks some free cell, so
      with the bound above it is the maximum, or the minimum, over the free cells. */
  lemma ScoreIsAttained(b: Board, c: BoardChar, machine: BoardChar, player: BoardChar)
    requires IsBoard(b) && c != Empty
    requires !Wins(b, machine) && !Wins(b, player) && HasEmpty(b)
    ensures exists i, j :: (0 <= i < 3 && 0 <= j < 3 && b[i][j] == Empty
      && MoveScore(b, c, machine, player, i, j) == Score(b, c, machine, player))
  {
    EmptyFromStart(b);
    assert Score(b, c, machine, player) == ScanMoves(b, c, machine, player, 0, 0, Initial(c, machine));
    ScanMovesAttained(b, c, machine, player, 0, 0, Initial(c, machine));
  }

  // ---------------------------------------------------------------------------
  // The machine's choice

  /** The value for the machine of marking (i, j) and handing the turn to the player. */
  function MachineMoveScore(b: Board, machine: BoardChar, player: BoardChar, i: nat, j: nat): int
    requires IsBoard(b) && player != Empty && i < 3 && j < 3
  {
    Score(Place(b, i, j, machine), player, machine, player)
  }

  /** A 3x3 table of values, one per cell. */
  predicate IsTable(vals: seq<seq<int>>)
  {
    |vals| == 3 && forall i :: 0 <= i < 3 ==> |vals[i]| == 3
  }

  /** The table of the machine's values of every cell; the move choice reads its free cells. */
  function ChildValues(b: Board, machine: BoardChar, player: BoardChar): (vals: seq<seq<int>>)
    requires IsBoard(b) && player != Empty
    ensures IsTable(vals)
    ensures forall i, j :: 0 <= i < 3 && 0 <= j < 3 ==> vals[i][j] == MachineMoveScore(b, machine, player, i, j)
  {
    seq(3, i requires 0 <= i < 3 => seq(3, j requires 0 <= j < 3 => MachineMoveScore(b, machine, player, i, j)))
  }

  /** The loops of the move choice from cell (i, j) on, over a table of cell values: a free
      cell replaces the recorded move only when its value is strictly greater than the recorded value. */
  function BestScan(b: Board, vals: seq<seq<int>>, i: nat, j: nat, bestVal: int, bestMove: Option<Move>): Option<Move>
    requires IsBoard(b) && IsTable(vals) && i <= 3 && j <= 3
    decreases 3 - i, 3 - j
  {
    if i == 3 then bestMove
    else if j == 3 then BestScan(b, vals, i + 1, 0, bestVal, bestMove)
    else if b[i][j] == Empty && vals[i][j] > bestVal then
      BestScan(b, vals, i, j + 1, vals[i][j], Some(Move(i, j)))
    else
      BestScan(b, vals, i, j + 1, bestVal, bestMove)
  }

  /** The machine's move on grid b: the scan above over the machine's values from the first cell, with -10 as the recorded value. */
  function BestMove(b: Board, machine: BoardChar, player: BoardChar): Option<Move>
    requires IsBoard(b) && player != Empty
  {
    BestScan(b, ChildValues(b, machine, player), 0, 0, -10, None)
  }

  /** Every free cell's value beats the starting record -10. */
  predicate AboveStart(b: Board, vals: seq<seq<int>>)
    requires IsBoard(b) && IsTable(vals)
  {
    forall i, j :: 0 <= i < 3 && 0 <= j < 3 && b[i][j] == Empty ==> -10 < vals[i][j]
  }

  /** What the scan has established after the cells before (i, j). */
  ghost predicate BestSoFar(b: Board, vals: seq<seq<int>>, i: nat, j: nat, bestVal: int, bestMove: Option<Move>)
    requires IsBoard(b) && IsTable(vals)
  {
    match bestMove
    case None =>
      bestVal == -10 && forall i', j' :: 0 <= i' < 3 && 0 <= j' < 3 && Before(i', j', i, j) ==> b[i'][j'] != Empty
    case Some(mv) =>
      && mv.row < 3 && mv.col < 3 && Before(mv.row, mv.col, i, j) && b[mv.row][mv.col] == Empty
      && bestVal == vals[mv.row][mv.col]
      && (forall i', j' :: 0 <= i' < 3 && 0 <= j' < 3 && Before(i', j', i, j) && b[i'][j'] == Empty ==> vals[i'][j'] <= bestVal)
      && (forall i', j' :: 0 <= i' < 3 && 0 <= j' < 3 && Before(i', j', mv.row, mv.col) && b[i'][j'] == Empty ==> vals[i'][j'] < bestVal)
  }

  /** Row i is done: the cells before the first cell of row i + 1 are those before (i, 3). */
  lemma BestSoFarNextRow(b: Board, vals: seq<seq<int>>, i: nat, bestVal: int, bestMove: Option<Move>)
    requires IsBoard(b) && IsTable(vals) && i < 3
    requires BestSoFar(b, vals, i, 3, bestVal, bestMove)
    ensures BestSoFar(b, vals, i + 1, 0, bestVal, bestMove)
  {
    assert forall i', j' :: 0 <= j' < 3 ==> (Before(i', j', i + 1, 0) <==> Before(i', j', i, 3));
  }

  /** A free cell strictly better than the record becomes the record. */
  lemma BestSoFarReplace(b: Board, vals: seq<seq<int>>, i: nat, j: nat, bestVal: int, bestMove: Option<Move>)
    requires IsBoard(b) && IsTable(vals) && i < 3 && j < 3
    requires BestSoFar(b, vals, i, j, bestVal, bestMove)
    requires b[i][j] == Empty && vals[i][j] > bestVal
    ensures BestSoFar(b, vals, i, j + 1, vals[i][j], Some(Move(i, j)))
  {
    forall i', j' | 0 <= i' < 3 && 0 <= j' < 3 && Before(i', j', i, j + 1) && b[i'][j'] == Empty
      ensures vals[i'][j'] <= vals[i][j]
    {
      if Before(i', j', i, j) {
        assert bestMove.Some?;
      }
    }
  }

  /** A cell that is taken, or free but not strictly better than the record, leaves the record. */
  lemma BestSoFarKeep(b: Board, vals: seq<seq<int>>, i: nat, j: nat, bestVal: int, bestMove: Option<Move>)
    requires IsBoard(b) && IsTable(vals) && AboveStart(b, vals) && i < 3 && j < 3
    requires BestSoFar(b, vals, i, j, bestVal, bestMove)
    requires !(b[i][j] == Empty && vals[i][j] > bestVal)
    ensures BestSoFar(b, vals, i, j + 1, bestVal, bestMove)
  {
  }

  /** Running the scan to the end from a state that satisfies BestSoFar gives a move that satisfies it for the whole grid. */
  lemma {:induction false} BestScanFinishes(b: Board, vals: seq<seq<int>>, i: nat, j: nat, bestVal: int, bestMove: Option<Move>)
    requires IsBoard(b) && IsTable(vals) && AboveStart(b, vals) && i <= 3 && j <= 3
    requires BestSoFar(b, vals, i, j, bestVal, bestMove)
    ensures exists v :: BestSoFar(b, vals, 3, 0, v, BestScan(b, vals, i, j, bestVal, bestMove))
    decreases 3 - i, 3 - j
  {
    if i == 3 {
      assert forall i', j' :: 0 <= i' < 3 ==> (Before(i', j', 3, j) <==> Before(i', j', 3, 0));
      assert BestSoFar(b, vals, 3, 0, bestVal, bestMove);
      assert BestScan(b, vals, i, j, bestVal, bestMove) == bestMove;
    } else if j == 3 {
      BestSoFarNextRow(b, vals, i, bestVal, bestMove);
      assert BestScan(b, vals, i, j, bestVal, bestMove) == BestScan(b, vals, i + 1, 0, bestVal, bestMove);
      BestScanFinishes(b, vals, i + 1, 0, bestVal, bestMove);
    } else if b[i][j] == Empty && vals[i][j] > bestVal {
      BestSoFarReplace(b, vals, i, j, bestVal, bestMove);
      assert BestScan(b, vals, i, j, bestVal, bestMove) == BestScan(b, vals, i, j + 1, vals[i][j], Some(Move(i, j)));
      BestScanFinishes(b, vals, i, j + 1, vals[i][j], Some(Move(i, j)));
    } else {
      BestSoFarKeep(b, vals, i, j, bestVal, bestMove);
      assert BestScan(b, vals, i, j, bestVal, bestMove) == BestScan(b, vals, i, j + 1, bestVal, bestMove);
      BestScanFinishes(b, vals, i, j + 1, bestVal, bestMove);
    }
  }

  /** mv is a free cell of maximal value in the table, and every free cell before it in
      row-major order has a strictly smaller value: the first of the best cells. */
  ghost predicate FirstBest(b: Board, vals: seq<seq<int>>, mv: Move)
    requires IsBoard(b) && IsTable(vals)
  {
    && mv.row < 3 && mv.col < 3 && b[mv.row][mv.col] == Empty
    && (forall i, j :: 0 <= i < 3 && 0 <= j < 3 && b[i][j] == Empty ==> vals[i][j] <= vals[mv.row][mv.col])
    && (forall i, j :: 0 <= i < 3 && 0 <= j < 3 && b[i][j] == Empty && Before(i, j, mv.row, mv.col) ==> vals[i][j] < vals[mv.row][mv.col])
  }

  /** A record that covers the whole grid: none exactly when no cell is free, otherwise the first best cell. */
  lemma BestSoFarAtEnd(b: Board, vals: seq<seq<int>>, bestVal: int, bestMove: Option<Move>)
    requires IsBoard(b) && IsTable(vals)
    requires BestSoFar(b, vals, 3, 0, bestVal, bestMove)
    ensures bestMove.None? <==> !HasEmpty(b)
    ensures bestMove.Some? ==> FirstBest(b, vals, bestMove.value)
  {
    assert forall i, j :: 0 <= i < 3 ==> Before(i, j, 3, 0);
  }

  /** The scan over any table whose free cells beat -10: none exactly when no cell is free, otherwise the first best cell. */
  lemma BestScanIsFirstBest(b: Board, vals: seq<seq<int>>)
    requires IsBoard(b) && IsTable(vals) && AboveStart(b, vals)
    ensures BestScan(b, vals, 0, 0, -10, None).None? <==> !HasEmpty(b)
    ensures BestScan(b, vals, 0, 0, -10, None).Some? ==> FirstBest(b, vals, BestScan(b, vals, 0, 0, -10, None).value)
  {
    BestScanFinishes(b, vals, 0, 0, -10, None);
    var v :| BestSoFar(b, vals, 3, 0, v, BestScan(b, vals, 0, 0, -10, None));
    BestSoFarAtEnd(b, vals, v, BestScan(b, vals, 0, 0, -10, None));
  }

  /** mv is a free cell of maximal value for the machine, and every free cell before it in
      row-major order has a strictly smaller value: the first of the best cells. */
  ghost predicate IsFirstOptimal(b: Board, machine: BoardChar, player: BoardChar, mv: Move)
    requires IsBoard(b) && player != Empty
  {
    && mv.row < 3 && mv.col < 3 && b[mv.row][mv.col] == Empty
    && (forall i, j :: 0 <= i < 3 && 0 <= j < 3 && b[i][j] == Empty ==>
          MachineMoveScore(b, machine, player, i, j) <= MachineMoveScore(b, machine, player, mv.row, mv.col))
    && (forall i, j :: 0 <= i < 3 && 0 <= j < 3 && b[i][j] == Empty && Before(i, j, mv.row, mv.col) ==>
          MachineMoveScore(b, machine, player, i, j) < MachineMoveScore(b, machine, player, mv.row, mv.col))
  }

  /**
   * The machine's move: none exactly when no cell is free; otherwise a free cell whose
   * value is the maximum over all free cells, and the first such cell in row-major order.
   */
  lemma BestMoveIsFirstOptimal(b: Board, machine: BoardChar, player: BoardChar)
    requires IsBoard(b) && player != Empty
    ensures BestMove(b, machine, player).None? <==> !HasEmpty(b)
    ensures BestMove(b, machine, player).Some? ==> IsFirstOptimal(b, machine, player, BestMove(b, machine, player).value)
  {
    var vals := ChildValues(b, machine, player);
    forall i, j | 0 <= i < 3 && 0 <= j < 3 && b[i][j] == Empty
      ensures -10 < vals[i][j]
    {
      assert vals[i][j] == Score(Place(b, i, j, machine), player, machine, player);
    }
    BestScanIsFirstBest(b, vals);
  }
}
