# Tic-tac-toe against a minimax engine, in Dafny

This project models `tic_tac-toe_rs`, a terminal tic-tac-toe game in which a person
plays against the machine. The person picks a symbol (`X` or `O`). The machine then
plays the opposite symbol. The board is a 3x3 grid of cells, each `O`, `X` or
`Empty`, and the machine picks its move by an exhaustive minimax search. The search
marks each free cell of the game's own grid, recurses, and clears the cell again.

The model has five modules.

- `Symbols` holds the cell state `BoardChar` and `ToOpposite`.
- `Rules` holds positions taken as values: `Board` (rows of cells), `Move`, the win
  test `Wins`, the free-cell test `HasEmpty`, and the minimax value `Score`. `Score`
  is written as a fold, `ScanMoves`, over the cells in the order of the source's
  nested loops. It also holds the machine's choice `BestMove` and its fold
  `BestScan`, which reads a table of the cells' values (`ChildValues`). These
  functions are the specification of the engine. The lemmas in `Rules` prove what
  they mean:
  - the score is the maximum or the minimum over the children;
  - the chosen move is the first free cell of maximal value.
- `Game` is the game object. It is a class over a 3x3 `array2` that its methods
  update in place.
  - `Evaluate`, `HasMoves`, `FindBestMove` and `Minimax` are the source's loops.
  - Each loop is proved to compute the corresponding `Rules` function on the grid
    that the array holds.
  - Each loop is also proved to leave the array as it found it, wherever the
    source undoes its own writes.
  - The nested loops of `minimax` form the method `SearchMoves`, which is mutually
    recursive with `Minimax`. `Minimax` keeps the three early returns.
- `Parsing` covers the text the person types and the text the game prints:
  - the symbol choice;
  - a move such as `1A` or `c3`;
  - the printed form of a move.
- `Scenarios` holds two worked positions:
  - the machine takes a winning cell over a blocking one;
  - the machine blocks the person's row.

`Wrappers` holds `Option` and `Result`. Rust's `Err(String)` results become
`Result<_, ParseError>`, whose three constructors match the source's three error
messages.

## Model

| member | source | states |
|---|---|---|
| `Symbols.ToOpposite` | src/main.rs:14-20 | Empty maps to Empty and only Empty does; a mark maps to the other mark |
| `Symbols.ToOppositeInvolution` | src/main.rs:14-20 | taking the opposite twice gives back the symbol |
| `Parsing.TrimIsSlice` | src/main.rs:37 | the result is a slice of the input with no whitespace at either end and only whitespace around it |
| `Parsing.ParseBoardChar` | src/main.rs:36-51 | the choice is X exactly when the trimmed text is "X" or "x", and O exactly when it is "O" or "o"; a successful parse is never Empty |
| `Parsing.ParseBoardCharErrors` | src/main.rs:38-50 | a trimmed text longer than one character is refused as too long; one other character is refused as not a symbol; nothing but whitespace is refused as unparsable |
| `Parsing.ParseMove` | src/main.rs:76-105 | the character loop computes the same result as `MoveFromText`: the last row digit and the last column letter read |
| `Parsing.MoveFromTextAccepts` | src/main.rs:78-104 | a move text is accepted exactly when its trimmed form is two characters, a row digit and a column letter in either order; the move is the cell they name, with row and column below 3 |
| `Parsing.FormatMoveShape` | src/main.rs:59-71 | a move of the grid prints as two characters: the digit for row + 1 and an upper-case column letter |
| `Parsing.FormatThenParse` | src/main.rs:59-105 | parsing the printed form of any move of the grid gives back that move |
| `Rules.Place` | src/main.rs:139-145 | the written cell holds the new symbol and every other cell is unchanged; nothing checks that the cell was free |
| `Rules.PlaceUsesOneCell` | src/main.rs:278-283 | marking a free cell lowers the count of free cells by one, which bounds the search depth |
| `Rules.PlaceThenClear` | src/main.rs:278-294 | marking a free cell and then clearing it restores the grid |
| `Rules.Score` | src/main.rs:252-300 | the value of a position is always -1, 0 or +1 |
| `Rules.ScanMoves` | src/main.rs:267-299 | folding the children from a cell on returns the running best when no free cell is left, and otherwise a value in -1..1 when started from `Initial`: -10 on the machine's turn, 10 on the player's |
| `Rules.ScoreOfFinishedPosition` | src/main.rs:254-265 | a machine line scores +1; otherwise a player line scores -1; otherwise a full grid scores 0 |
| `Rules.ScanMovesBounds` | src/main.rs:275-297 | the fold's result is no worse for the side to move than its starting value and than the value of every free cell it visits |
| `Rules.ScanMovesAttained` | src/main.rs:275-297 | the fold's result is either its starting value or the value of one of the free cells it visits |
| `Rules.ScoreOfOpenPosition` | src/main.rs:267-299 | on an open grid the score bounds every child's value from above on the machine's turn and from below on the player's |
| `Rules.ScoreIsAttained` | src/main.rs:267-299 | on an open grid the score equals the value of some free cell, so it is the maximum or the minimum over the children |
| `Rules.BestScanFinishes` | src/main.rs:161-179 | over any table of cell values that beat -10, the move-choice loop ends with a record that is the first free cell of maximal value, or none when no cell was free |
| `Rules.BestScanIsFirstBest` | src/main.rs:155-182 | the loop started from -10 and no move yields no move exactly when no cell is free, and otherwise the first free cell of maximal value in the table |
| `Rules.BestMoveIsFirstOptimal` | src/main.rs:155-182 | there is no move exactly when no cell is free; otherwise the move is a free cell whose value is maximal, and every free cell before it in row-major order has a strictly smaller value |
| `Game.Evaluate` | src/main.rs:222-248 | the row, column and diagonal checks return true exactly when the symbol fills a whole row, column or diagonal |
| `Game.TicTacToe.constructor` | src/main.rs:116-122 | a new game has an all-Empty grid, the chosen symbol for the player and its opposite for the machine |
| `Game.TicTacToe.HasMoves` | src/main.rs:127-137 | true exactly when some cell is Empty |
| `Game.TicTacToe.PlayerMove` | src/main.rs:139-141 | the grid becomes the old grid with the player's symbol written into the move's cell |
| `Game.TicTacToe.MachineMove` | src/main.rs:143-145 | the grid becomes the old grid with the machine's symbol written into the move's cell |
| `Game.TicTacToe.PlayerEvaluate` | src/main.rs:147-149 | true exactly when the player holds a whole line |
| `Game.TicTacToe.MachineEvaluate` | src/main.rs:151-153 | true exactly when the machine holds a whole line |
| `Game.TicTacToe.FindBestMove` | src/main.rs:155-182 | the grid is left unchanged and the result is `BestMove` of the grid, the first free cell of maximal minimax value |
| `Game.Minimax` | src/main.rs:252-300 | the search terminates, leaves the grid unchanged, and returns `Score` of the grid with c to move |
| `Game.SearchMoves` | src/main.rs:267-299 | the nested loops leave the grid unchanged and return the fold of the children's values from -10 for the machine or 10 for the player |
| `Scenarios.MachineTakesTheWin` | src/main.rs:155-182 | with a blocking cell first in row-major order and a winning cell later, the machine picks the winning cell |
| `Scenarios.MachineBlocks` | src/main.rs:155-182 | when the player threatens a row, the machine picks the cell that blocks it |

## Left out

- `read_input` and `main` (src/main.rs:302-344) are left out: they are terminal input and output plus the game loop that calls the modelled operations.
- The `Display` implementations for `TicTacToe` and `BoardChar` (src/main.rs:23-31, 185-220) are left out: they only draw the grid with box-drawing characters.
- Parsing.TrimIsSlice: only ASCII whitespace (space, and tab through carriage return) is trimmed, where Rust's `trim` removes all Unicode whitespace.
- Text lengths are counted in characters, where Rust's `len` counts UTF-8 bytes. A single non-ASCII character is refused as too long by the source but as not a symbol by `ParseBoardChar`. A two-byte single character reaches the move loop in the source but is refused as too long by `MoveFromText`.
- Error messages are not formatted: a `ParseError` carries the text or character that the message would show. For moves, the source's "too lang" message covers every trimmed length other than 2, and the model keeps that as `TooLong`.
- `Move` holds unbounded naturals, not `usize`. The overflow of `row + 1` when printing a move whose row is the largest `usize` is not modelled.
- Scores are `int`, not `i16`: every value the search computes lies between -10 and 10, so the width never matters.
- Game.Minimax: requires the symbol to move to be X or O. Take a player symbol of Empty (so the machine's is Empty too) and a grid with a free cell but no all-Empty line, such as X on the main diagonal. There the source writes Empty into the free cell and recurses on the same grid without end. No game can reach that case, because `ParseBoardChar` never yields Empty.
- Game.TicTacToe.FindBestMove: requires the player's symbol to be X or O, for the same reason as `Minimax`.
- Game.TicTacToe.PlayerMove and Game.TicTacToe.MachineMove: the index panic of src/main.rs:140 and src/main.rs:144 on a row or column above 2 is modelled as the precondition `m.row < 3 && m.col < 3`. Every move the game produces meets it: `MoveFromTextAccepts` bounds parsed moves and `BestMoveIsFirstOptimal` bounds the machine's.
- PlayerMove and MachineMove write without checking that the cell is free, as the source does. A move onto an occupied cell overwrites it, and the model has no rejection path for it.
- The search from the empty grid (a draw under perfect play) is not stated as a lemma: proving it means evaluating all positions of the game inside the verifier.
