/**
 * Two worked positions for the machine's choice; in both the machine plays O and the
 * player X, two cells are free, and the machine is to move.
 */
module Scenarios {
  import opened Symbols
  import opened Wrappers
  import opened Rules

  /**
   *     X X .
   *     O O .
   *     X O X
   *
   * Marking the top right cell blocks the player's row and leads to a draw; marking the
   * middle right cell completes the machine's row.
   */
  const WinAvailable: Board := [[X, X, Empty], [O, O, Empty], [X, O, X]]

  /** Blocking at the top right: the player's only reply fills the grid without a line. */
  lemma BlockingDraws()
    ensures MachineMoveScore(WinAvailable, O, X, 0, 2) == 0
  {
    var b1 := Place(WinAvailable, 0, 2, O);
    BoardExtensionality(b1, [[X, X, O], [O, O, Empty], [X, O, X]]);
    var b2 := Place(b1, 1, 2, X);
    BoardExtensionality(b2, [[X, X, O], [O, O, X], [X, O, X]]);
    assert !HasEmpty(b2);
    assert MoveScore(b1, X, O, X, 1, 2) == 0;
    ScoreIsAttained(b1, X, O, X);
  }

  /** Completing the middle row wins at once. */
  lemma WinningWins()
    ensures MachineMoveScore(WinAvailable, O, X, 1, 2) == 1
  {
    var b1 := Place(WinAvailable, 1, 2, O);
    BoardExtensionality(b1, [[X, X, Empty], [O, O, O], [X, O, X]]);
    assert RowFilled(b1, 1, O);
  }

  /** The machine prefers its own win to blocking the player, although the block comes first. */
  lemma MachineTakesTheWin()
    ensures BestMove(WinAvailable, O, X) == Some(Move(1, 2))
  {
    BlockingDraws();
    WinningWins();
    BestMoveIsFirstOptimal(WinAvailable, O, X);
    assert WinAvailable[0][2] == Empty;
    var mv := BestMove(WinAvailable, O, X).value;
    assert WinAvailable[mv.row][mv.col] == Empty;
  }

  /**
   *     X X .
   *     O O X
   *     . X O
   *
   * The player threatens the top row. Marking the top right cell blocks it and the game
   * ends in a draw; marking the bottom left cell lets the player complete the row.
   */
  const MustBlock: Board := [[X, X, Empty], [O, O, X], [Empty, X, O]]

  /** Blocking at the top right: the player's only reply fills the grid without a line. */
  lemma BlockingHolds()
    ensures MachineMoveScore(MustBlock, O, X, 0, 2) == 0
  {
    var b1 := Place(MustBlock, 0, 2, O);
    BoardExtensionality(b1, [[X, X, O], [O, O, X], [Empty, X, O]]);
    var b2 := Place(b1, 2, 0, X);
    BoardExtensionality(b2, [[X, X, O], [O, O, X], [X, X, O]]);
    assert !HasEmpty(b2);
    assert MoveScore(b1, X, O, X, 2, 0) == 0;
    ScoreIsAttained(b1, X, O, X);
  }

  /** Leaving the top row open: the player completes it. */
  lemma NotBlockingLoses()
    ensures MachineMoveScore(MustBlock, O, X, 2, 0) == -1
  {
    var b1 := Place(MustBlock, 2, 0, O);
    BoardExtensionality(b1, [[X, X, Empty], [O, O, X], [O, X, O]]);
    var b2 := Place(b1, 0, 2, X);
    BoardExtensionality(b2, [[X, X, X], [O, O, X], [O, X, O]]);
    assert RowFilled(b2, 0, X);
    assert MoveScore(b1, X, O, X, 0, 2) == -1;
    ScoreIsAttained(b1, X, O, X);
  }

  /** The machine blocks the player's row. */
  lemma MachineBlocks()
    ensures BestMove(MustBlock, O, X) == Some(Move(0, 2))
  {
    BlockingHolds();
    NotBlockingLoses();
    BestMoveIsFirstOptimal(MustBlock, O, X);
    assert MustBlock[0][2] == Empty;
    var mv := BestMove(MustBlock, O, X).value;
    assert MustBlock[mv.row][mv.col] == Empty;
  }
}
