/**
 * The win check shared by the sub-boards and the meta-board: a 3x3 grid,
 * numbered row-major 0..8, is won by `p` when one of the eight winning
 * index triples holds `p` in all three places.
 */
module Lines {
  import opened Wrappers
  import opened Marks

  /** The eight winning triples: three rows, three columns, two diagonals. */
  const WinPatterns: seq<seq<nat>> :=
    [[0, 1, 2], [3, 4, 5], [6, 7, 8],
     [0, 3, 6], [1, 4, 7], [2, 5, 8],
     [0, 4, 8], [2, 4, 6]]

  /** Every index of every pattern addresses a cell of `g`. */
  predicate InRange(g: seq<Cell>, patterns: seq<seq<nat>>)
  {
    forall i, k :: 0 <= i < |patterns| && 0 <= k < |patterns[i]| ==> patterns[i][k] < |g|
  }

  /** `p` occupies every index of `pattern` in `g`. */
  ghost predicate Completes(g: seq<Cell>, pattern: seq<nat>, p: Player)
  {
    forall k :: 0 <= k < |pattern| ==> pattern[k] < |g| && g[pattern[k]] == Some(p)
  }

  /** The inner test of the win check: every index of `pattern` holds `p`. */
  function AllHold(g: seq<Cell>, pattern: seq<nat>, p: Player): (r: bool)
    requires forall k :: 0 <= k < |pattern| ==> pattern[k] < |g|
    ensures r <==> Completes(g, pattern, p)
  {
    if pattern == [] then true
    else
      var rest := AllHold(g, pattern[1..], p);
      assert g[pattern[0]] == Some(p) && Completes(g, pattern[1..], p) ==> Completes(g, pattern, p) by {
        if Completes(g, pattern[1..], p) && g[pattern[0]] == Some(p) {
          forall k | 0 <= k < |pattern|
            ensures pattern[k] < |g| && g[pattern[k]] == Some(p)
          {
            if k > 0 {
              assert pattern[k] == pattern[1..][k - 1];
            }
          }
        }
      }
      g[pattern[0]] == Some(p) && rest
  }

  /** The outer test of the win check: some pattern is completed by `p`. */
  function AnyComplete(g: seq<Cell>, patterns: seq<seq<nat>>, p: Player): (r: bool)
    requires InRange(g, patterns)
    ensures r <==> exists i :: 0 <= i < |patterns| && Completes(g, patterns[i], p)
  {
    if patterns == [] then false
    else
      assert InRange(g, patterns[1..]) by {
        forall i, k | 0 <= i < |patterns[1..]| && 0 <= k < |patterns[1..][i]|
          ensures patterns[1..][i][k] < |g|
        {
          assert patterns[1..][i] == patterns[i + 1];
        }
      }
      var rest := AnyComplete(g, patterns[1..], p);
      assert rest ==> exists i :: 0 <= i < |patterns| && Completes(g, patterns[i], p) by {
        if rest {
          var i :| 0 <= i < |patterns[1..]| && Completes(g, patterns[1..][i], p);
          assert patterns[1..][i] == patterns[i + 1];
        }
      }
      assert (exists i :: 0 <= i < |patterns| && Completes(g, patterns[i], p)) ==>
             Completes(g, patterns[0], p) || rest by {
        if i :| 0 <= i < |patterns| && Completes(g, patterns[i], p) {
          if i > 0 {
            assert patterns[i] == patterns[1..][i - 1];
          }
        }
      }
      AllHold(g, patterns[0], p) || rest
  }

  // ---------------------------------------------------------------------
  // Independent reference: lines described by rows and columns of a 3x3 grid.

  /** The cell at row `row`, column `col` of a row-major 3x3 grid. */
  function At(g: seq<Cell>, row: nat, col: nat): Cell
    requires |g| == 9 && row < 3 && col < 3
  {
    g[3 * row + col]
  }

  ghost predicate RowFilled(g: seq<Cell>, row: nat, p: Player)
    requires |g| == 9 && row < 3
  {
    forall col :: 0 <= col < 3 ==> At(g, row, col) == Some(p)
  }

  ghost predicate ColumnFilled(g: seq<Cell>, col: nat, p: Player)
    requires |g| == 9 && col < 3
  {
    forall row :: 0 <= row < 3 ==> At(g, row, col) == Some(p)
  }

  /** `p` holds a full row, a full column or a full diagonal of the grid. */
  ghost predicate ThreeInARow(g: seq<Cell>, p: Player)
    requires |g| == 9
  {
    || (exists row: nat :: row < 3 && RowFilled(g, row, p))
    || (exists col: nat :: col < 3 && ColumnFilled(g, col, p))
    || (forall row: nat, col: nat :: row < 3 && col < 3 && row == col ==> At(g, row, col) == Some(p))
    || (forall row: nat, col: nat :: row < 3 && col < 3 && row + col == 2 ==> At(g, row, col) == Some(p))
  }

  lemma PatternsInRange(g: seq<Cell>)
    requires |g| == 9
    ensures InRange(g, WinPatterns)
  {
  }

  /** The pattern table describes exactly the rows, columns and diagonals. */
  lemma PatternsAreLines(g: seq<Cell>, p: Player)
    requires |g| == 9
    ensures (exists i :: 0 <= i < |WinPatterns| && Completes(g, WinPatterns[i], p))
            <==> ThreeInARow(g, p)
  {
    if i :| 0 <= i < |WinPatterns| && Completes(g, WinPatterns[i], p) {
      var pat := WinPatterns[i];
      assert g[pat[0]] == Some(p) && g[pat[1]] == Some(p) && g[pat[2]] == Some(p);
      if i < 3 {
        assert RowFilled(g, i, p);
      } else if i < 6 {
        assert ColumnFilled(g, i - 3, p);
      } else if i == 6 {
        assert forall row: nat, col: nat :: row < 3 && col < 3 && row == col ==> At(g, row, col) == Some(p);
      } else {
        assert forall row: nat, col: nat :: row < 3 && col < 3 && row + col == 2 ==> At(g, row, col) == Some(p);
      }
    }
    if ThreeInARow(g, p) {
      if row: nat :| row < 3 && RowFilled(g, row, p) {
        assert At(g, row, 0) == Some(p) && At(g, row, 1) == Some(p) && At(g, row, 2) == Some(p);
        assert Completes(g, WinPatterns[row], p);
      } else if col: nat :| col < 3 && ColumnFilled(g, col, p) {
        assert At(g, 0, col) == Some(p) && At(g, 1, col) == Some(p) && At(g, 2, col) == Some(p);
        assert Completes(g, WinPatterns[3 + col], p);
      } else if forall row: nat, col: nat :: row < 3 && col < 3 && row == col ==> At(g, row, col) == Some(p) {
        assert At(g, 0, 0) == Some(p) && At(g, 1, 1) == Some(p) && At(g, 2, 2) == Some(p);
        assert Completes(g, WinPatterns[6], p);
      } else {
        assert At(g, 0, 2) == Some(p) && At(g, 1, 1) == Some(p) && At(g, 2, 0) == Some(p);
        assert Completes(g, WinPatterns[7], p);
      }
    }
  }

  /**
   * The win check on one 3x3 grid (the body of both `checkSmallBoardWinner`
   * and `checkBigGameWinner`): some winning pattern is all `p`.
   */
  function HasLine(g: seq<Cell>, p: Player): (r: bool)
    requires |g| == 9
    ensures r <==> ThreeInARow(g, p)
  {
    PatternsInRange(g);
    PatternsAreLines(g, p);
    AnyComplete(g, WinPatterns, p)
  }

  /**
   * Writing `p` into one cell cannot give a line to the other player: every
   * line of `q` after the write was already a line of `q` before it.
   */
  lemma WriteKeepsOtherLines(g: seq<Cell>, j: nat, p: Player, q: Player)
    requires |g| == 9 && j < 9 && q != p
    ensures ThreeInARow(g[j := Some(p)], q) ==> ThreeInARow(g, q)
  {
    var h := g[j := Some(p)];
    PatternsAreLines(g, q);
    PatternsAreLines(h, q);
    if i :| 0 <= i < |WinPatterns| && Completes(h, WinPatterns[i], q) {
      assert Completes(g, WinPatterns[i], q) by {
        forall k | 0 <= k < |WinPatterns[i]|
          ensures WinPatterns[i][k] < |g| && g[WinPatterns[i][k]] == Some(q)
        {
          assert h[WinPatterns[i][k]] == Some(q);
        }
      }
    }
  }
}
