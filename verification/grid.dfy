/**
 * Index arithmetic between the 9x9 global grid of cells (row and column
 * 0..8, flattened row-major to 0..80) and the nine 3x3 sub-boards.
 * All arguments are non-negative, so JavaScript's `Math.floor(a / 3)` and
 * `a % 3` coincide with Dafny's `/` and `%`.
 */
module Grid {

  /** The sub-board (0..8, row-major over the meta-grid) holding global cell (`row`, `col`). */
  function BigBoardIndex(row: nat, col: nat): (big: nat)
    requires row < 9 && col < 9
    ensures big < 9
    ensures big / 3 == row / 3 && big % 3 == col / 3
  {
    (row / 3) * 3 + col / 3
  }

  /**
   * The flattened global index (0..80) of the cell at (`smallRow`, `smallCol`)
   * inside sub-board `big`.
   */
  function SmallBoardIndex(big: nat, smallRow: nat, smallCol: nat): (f: nat)
    requires big < 9 && smallRow < 3 && smallCol < 3
    ensures f < 81
    ensures f / 9 / 3 == big / 3 && f / 9 % 3 == smallRow
    ensures f % 9 / 3 == big % 3 && f % 9 % 3 == smallCol
  {
    var bigRow := big / 3;
    var bigCol := big % 3;
    (bigRow * 3 + smallRow) * 9 + (bigCol * 3 + smallCol)
  }

  /** A cell's flattened index lies in the sub-board it was computed for. */
  lemma SmallIndexInBoard(big: nat, smallRow: nat, smallCol: nat)
    requires big < 9 && smallRow < 3 && smallCol < 3
    ensures var f := SmallBoardIndex(big, smallRow, smallCol);
            BigBoardIndex(f / 9, f % 9) == big
  {
  }

  /** Distinct positions map to distinct flattened indices. */
  lemma SmallIndexInjective(b1: nat, r1: nat, c1: nat, b2: nat, r2: nat, c2: nat)
    requires b1 < 9 && r1 < 3 && c1 < 3
    requires b2 < 9 && r2 < 3 && c2 < 3
    ensures SmallBoardIndex(b1, r1, c1) == SmallBoardIndex(b2, r2, c2)
            <==> b1 == b2 && r1 == r2 && c1 == c2
  {
  }

  /** Every global cell is reached: splitting (`row`, `col`) into board and offset and back is the identity. */
  lemma GlobalCellRoundTrip(row: nat, col: nat)
    requires row < 9 && col < 9
    ensures SmallBoardIndex(BigBoardIndex(row, col), row % 3, col % 3) == 9 * row + col
  {
  }
}
