/** The content of one cell of the grid, and the symbol a player is bound to. */
module Symbols {

  /** The three cell tags of the game: a player's mark, the other player's mark, or nothing. */
  datatype BoardChar = O | X | Empty

  /** The symbol of the other side: X and O swap, Empty stays Empty. */
  function ToOpposite(c: BoardChar): (r: BoardChar)
    ensures c == Empty <==> r == Empty
    ensures c != Empty ==> r != c
  {
    match c
    case Empty => Empty
    case O => X
    case X => O
  }

  /** Taking the opposite twice gives back the symbol one started from. */
  lemma ToOppositeInvolution(c: BoardChar)
    ensures ToOpposite(ToOpposite(c)) == c
  {
  }
}
