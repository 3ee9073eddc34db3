/**
 * The game object: a 3x3 array of cells updated in place, the symbols of the two
 * sides, and the engine that searches for the machine's move by marking cells of that
 * same array and restoring them. Each operation is proved to compute the
 * corresponding function of module Rules on the grid the array holds.
 */
module Game {
  import opened Symbols
  import opened Wrappers
  import opened Rules

  /** The nine cells of a 3x3 array, as a grid value. */
  ghost function Grid(a: array2<BoardChar>): (b: Board)
    reads a
    requires a.Length0 == 3 && a.Length1 == 3
    ensures IsBoard(b)
    ensures forall i, j :: 0 <= i < 3 && 0 <= j < 3 ==> b[i][j] == a[i, j]
  {
    [[a[0, 0], a[0, 1], a[0, 2]], [a[1, 0], a[1, 1], a[1, 2]], [a[2, 0], a[2, 1], a[2, 2]]]
  }

  /** Whether c holds a whole row, column or diagonal of b; rows are tried first, then
      columns, then the two diagonals, returning at the first line found. */
  method Evaluate(b: array2<BoardChar>, c: BoardChar) returns (won: bool)
    requires b.Length0 == 3 && b.Length1 == 3
    ensures won == Wins(Grid(b), c)
  {
    for row := 0 to 3
      invariant forall r :: 0 <= r < row ==> !RowFilled(Grid(b), r, c)
    {
      if b[row, 0] == c && b[row, 0] == b[row, 1] && b[row, 1] == b[row, 2] {
        assert RowFilled(Grid(b), row, c);
        return true;
      }
    }
    for col := 0 to 3
      invariant forall r :: 0 <= r < 3 ==> !RowFilled(Grid(b), r, c)
      invariant forall k :: 0 <= k < col ==> !ColumnFilled(Grid(b), k, c)
    {
      if b[0, col] == c && b[0, col] == b[1, col] && b[1, col] == b[2, col] {
        assert ColumnFilled(Grid(b), col, c);
        return true;
      }
    }
    if b[0, 0] == c && b[0, 0] == b[1, 1] && b[1, 1] == b[2, 2] {
      return true;
    }
    if b[0, 2] == c && b[0, 2] == b[1, 1] && b[1, 1] == b[2, 0] {
      return true;
    }
    return false;
  }

  class TicTacToe {
    const board: array2<BoardChar>
    const playerChar: BoardChar
    const machineChar: BoardChar

    /** The grid is 3x3 and the machine plays the symbol opposite to the player's. */
    ghost predicate Valid() {
      board.Length0 == 3 && board.Length1 == 3 && machineChar == ToOpposite(playerChar)
    }

    /** A new game: an all-Empty grid, the player bound to playerChar, the machine to its opposite. */
    constructor (playerChar: BoardChar)
      ensures Valid() && fresh(board)
      ensures this.playerChar == playerChar && machineChar == ToOpposite(playerChar)
      ensures Grid(board) == EmptyBoard
    {
      this.playerChar := playerChar;
      machineChar := ToOpposite(playerChar);
      board := new BoardChar[3, 3]((i, j) => Empty);
    }

    /** Whether some cell is still Empty, scanning row by row and returning at the first one. */
    method HasMoves() returns (r: bool)
      requires Valid()
      ensures r == HasEmpty(Grid(board))
    {
      for row := 0 to 3
        invariant forall i, j :: 0 <= i < row && 0 <= j < 3 ==> board[i, j] != Empty
      {
        for col := 0 to 3
          invariant forall j :: 0 <= j < col ==> board[row, j] != Empty
        {
          if board[row, col] == Empty {
            assert Grid(board)[row][col] == Empty;
            return true;
          }
        }
      }
      return false;
    }

    /** The write of one cell, the assignment board[i][j] = c of the source: nothing else changes. */
    method SetCell(i: nat, j: nat, c: BoardChar)
      requires Valid() && i < 3 && j < 3
      modifies board
      ensures Grid(board) == Place(old(Grid(board)), i, j, c)
    {
      ghost var b := Grid(board);
      board[i, j] := c;
      assert Grid(board)[0] == Place(b, i, j, c)[0];
      assert Grid(board)[1] == Place(b, i, j, c)[1];
      assert Grid(board)[2] == Place(b, i, j, c)[2];
    }

    /** The player's mark is written into cell m, whatever the cell held before. */
    method PlayerMove(m: Move)
      requires Valid() && m.row < 3 && m.col < 3
      modifies board
      ensures Grid(board) == Place(old(Grid(board)), m.row, m.col, playerChar)
    {
      SetCell(m.row, m.col, playerChar);
    }

    /** The machine's mark is written into cell m, whatever the cell held before. */
    method MachineMove(m: Move)
      requires Valid() && m.row < 3 && m.col < 3
      modifies board
      ensures Grid(board) == Place(old(Grid(board)), m.row, m.col, machineChar)
    {
      SetCell(m.row, m.col, machineChar);
    }

    /** Whether the player holds a whole line. */
    method PlayerEvaluate() returns (won: bool)
      requires Valid()
      ensures won == Wins(Grid(board), playerChar)
    {
      won := Evaluate(board, playerChar);
    }

    /** Whether the machine holds a whole line. */
    method MachineEvaluate() returns (won: bool)
      requires Valid()
      ensures won == Wins(Grid(board), machineChar)
    {
      won := Evaluate(board, machineChar);
    }

    /**
     * The machine's move: every Empty cell in row-major order is marked with the
     * machine's symbol, scored by Minimax with the player to move, and cleared again;
     * a cell replaces the recorded move only with a strictly greater score than the
     * recorded one, which starts at -10. The grid is left as it was found.
     */
    method FindBestMove() returns (bestMove: Option<Move>)
      requires Valid() && playerChar != Empty
      modifies board
      ensures Grid(board) == old(Grid(board))
      ensures bestMove == BestMove(old(Grid(board)), machineChar, playerChar)
    {
      ghost var b := Grid(board);
      ghost var vals := ChildValues(b, machineChar, playerChar);
      var bestVal := -10;
      bestMove := None;
      for i := 0 to 3
        invariant Grid(board) == b
        invariant BestScan(b, vals, i, 0, bestVal, bestMove) == BestMove(b, machineChar, playerChar)
      {
        for j := 0 to 3
          invariant Grid(board) == b
          invariant BestScan(b, vals, i, j, bestVal, bestMove) == BestMove(b, machineChar, playerChar)
        {
          ghost var val0, move0 := bestVal, bestMove;
          if board[i, j] == Empty {
            SetCell(i, j, machineChar);
            var moveVal := Minimax(this, playerChar);
            assert moveVal == vals[i][j] == MachineMoveScore(b, machineChar, playerChar, i, j);
            if moveVal > bestVal {
              bestMove := Some(Move(i, j));
              bestVal := moveVal;
            }
            SetCell(i, j, Empty);
            PlaceThenClear(b, i, j, machineChar);
          }
          assert BestScan(b, vals, i, j + 1, bestVal, bestMove) == BestScan(b, vals, i, j, val0, move0);
        }
      }
    }
  }

  /**
   * The minimax search on the game's own grid with c to move: +1 if the machine
   * holds a line, -1 if the player does, 0 if no cell is Empty, and otherwise the
   * maximum (c is the machine's symbol) or minimum (otherwise) over the Empty cells
   * of the score after c marks the cell. The grid is left exactly as it was found.
   */
  method Minimax(ttt: TicTacToe, c: BoardChar) returns (v: int)
    requires ttt.Valid() && c != Empty
    modifies ttt.board
    ensures Grid(ttt.board) == old(Grid(ttt.board))
    ensures v == Score(old(Grid(ttt.board)), c, ttt.machineChar, ttt.playerChar)
    decreases EmptyCount(Grid(ttt.board)), 1
  {
    var machineWon := ttt.MachineEvaluate();
    if machineWon {
      return 1;
    }
    var playerWon := ttt.PlayerEvaluate();
    if playerWon {
      return -1;
    }
    var moves := ttt.HasMoves();
    if !moves {
      return 0;
    }
    v := SearchMoves(ttt, c);
  }

  /**
   * The loops of the minimax search: every Empty cell in row-major order is marked
   * with c, scored by Minimax with the other side to move, and cleared again; the
   * running best starts at -10 for the machine and 10 for the player and keeps the
   * maximum or the minimum of the scores seen. The grid is left as it was found.
   */
  method SearchMoves(ttt: TicTacToe, c: BoardChar) returns (best: int)
    requires ttt.Valid() && c != Empty
    modifies ttt.board
    ensures Grid(ttt.board) == old(Grid(ttt.board))
    ensures best == ScanMoves(old(Grid(ttt.board)), c, ttt.machineChar, ttt.playerChar, 0, 0, Initial(c, ttt.machineChar))
    decreases EmptyCount(Grid(ttt.board)), 0
  {
    ghost var b := Grid(ttt.board);
    best := if c == ttt.machineChar then -10 else 10;
    for i := 0 to 3
      invariant Grid(ttt.board) == b
      invariant ScanMoves(b, c, ttt.machineChar, ttt.playerChar, i, 0, best) == ScanMoves(b, c, ttt.machineChar, ttt.playerChar, 0, 0, Initial(c, ttt.machineChar))
    {
      for j := 0 to 3
        invariant Grid(ttt.board) == b
        invariant ScanMoves(b, c, ttt.machineChar, ttt.playerChar, i, j, best) == ScanMoves(b, c, ttt.machineChar, ttt.playerChar, 0, 0, Initial(c, ttt.machineChar))
      {
        ghost var before, child := best, 0;
        if ttt.board[i, j] == Empty {
          ttt.SetCell(i, j, c);
          PlaceUsesOneCell(b, i, j, c);
          var nextBest := Minimax(ttt, ToOpposite(c));
          child := nextBest;
          if c == ttt.machineChar {
            best := Max(best, nextBest);
          } else {
            best := Min(best, nextBest);
          }
          ttt.SetCell(i, j, Empty);
          PlaceThenClear(b, i, j, c);
        }
        ScanMovesStep(b, c, ttt.machineChar, ttt.playerChar, i, j, before, child, best);
      }
    }
  }
}
