/** The two players and the content of a single cell. */
module Marks {
  import opened Wrappers

  /** The two marks a player can place ('X' and 'O' in the game). */
  datatype Player = X | O

  /** A cell of a sub-board, or an entry of the meta-board: empty (`None`) or a mark. */
  type Cell = Option<Player>

  /** The player whose turn follows `p`'s. */
  function Other(p: Player): (q: Player)
    ensures q != p
  {
    if p == X then O else X
  }
}
