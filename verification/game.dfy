/**
 * The rules engine of Ultimate Tic-Tac-Toe: nine 3x3 sub-boards in a 3x3
 * meta-grid. A move names a sub-board and a cell in it; the cell's index
 * decides which sub-board the opponent must play in next.
 */
module Game {
  import opened Wrappers
  import opened Marks
  import opened Lines

  /**
   * The whole game. `boards[b][c]` is cell `c` of sub-board `b`;
   * `bigBoardWinners[b]` is the player who won sub-board `b`, if any;
   * `nextBoard` is the sub-board the next move is forced into, `None` for
   * any board.
   */
  datatype GameState = GameState(
    currentPlayer: Player,
    nextBoard: Option<nat>,
    gameOver: bool,
    winner: Option<Player>,
    boards: seq<seq<Cell>>,
    bigBoardWinners: seq<Cell>)

  /** The shape every state has: nine sub-boards of nine cells, nine board winners. */
  predicate WellFormed(s: GameState)
  {
    && |s.boards| == 9
    && (forall b :: 0 <= b < |s.boards| ==> |s.boards[b]| == 9)
    && |s.bigBoardWinners| == 9
  }

  /** Nine empty cells. */
  const EmptyGrid: seq<Cell> := seq(9, _ => None)

  /** The state the constructor builds: X to move anywhere, every cell and board winner empty. */
  function NewGame(): (s: GameState)
    ensures WellFormed(s)
    ensures s.currentPlayer == X && s.nextBoard == None
    ensures !s.gameOver && s.winner == None
    ensures forall b, c :: 0 <= b < 9 && 0 <= c < 9 ==> s.boards[b][c] == None
    ensures forall b :: 0 <= b < 9 ==> s.bigBoardWinners[b] == None
  {
    GameState(X, None, false, None, seq(9, _ => EmptyGrid), EmptyGrid)
  }

  /** `restartGame`: overwrite every field of `s` with its initial value. */
  function Restart(s: GameState): (r: GameState)
    ensures r == NewGame()
  {
    s.(currentPlayer := X, nextBoard := None, gameOver := false, winner := None,
       boards := seq(9, _ => EmptyGrid), bigBoardWinners := EmptyGrid)
  }

  /** `checkSmallBoardWinner`: `p` holds a winning pattern of sub-board `b`. */
  function CheckSmallBoardWinner(s: GameState, b: nat, p: Player): (r: bool)
    requires WellFormed(s) && b < 9
    ensures r <==> ThreeInARow(s.boards[b], p)
  {
    HasLine(s.boards[b], p)
  }

  /** `checkBigGameWinner`: `p` holds a winning pattern of the meta-board. */
  function CheckBigGameWinner(s: GameState, p: Player): (r: bool)
    requires WellFormed(s)
    ensures r <==> ThreeInARow(s.bigBoardWinners, p)
  {
    HasLine(s.bigBoardWinners, p)
  }

  /**
   * `makeMove(big, small)`: returns whether the move was accepted, with the
   * state after it. A rejected move leaves the state untouched.
   */
  function MakeMove(s: GameState, big: nat, small: nat): (r: (bool, GameState))
    requires WellFormed(s) && big < 9 && small < 9
    ensures WellFormed(r.1)
    // rejection: the three guards, and nothing changes
    ensures !r.0 <==> || s.gameOver
                      || (s.nextBoard.Some? && s.nextBoard.value != big)
                      || s.boards[big][small].Some?
                      || s.bigBoardWinners[big].Some?
    ensures !r.0 ==> r.1 == s
    // acceptance: exactly one cell, previously empty, receives the mover's mark
    ensures r.0 ==> r.1.boards[big][small] == Some(s.currentPlayer)
    ensures r.0 ==> forall b, c :: 0 <= b < 9 && 0 <= c < 9 && (b != big || c != small) ==>
                      r.1.boards[b][c] == s.boards[b][c]
    // the played sub-board is recorded as won exactly when the mark completes a line there
    ensures r.0 ==> r.1.bigBoardWinners[big] ==
                      (if ThreeInARow(r.1.boards[big], s.currentPlayer) then Some(s.currentPlayer) else None)
    ensures r.0 ==> forall b :: 0 <= b < 9 && b != big ==> r.1.bigBoardWinners[b] == s.bigBoardWinners[b]
    // the game ends exactly when that sub-board win completes a meta-board line
    ensures r.0 ==> (r.1.gameOver <==> r.1.bigBoardWinners[big] == Some(s.currentPlayer)
                                       && ThreeInARow(r.1.bigBoardWinners, s.currentPlayer))
    ensures r.0 && r.1.gameOver ==> r.1.winner == Some(s.currentPlayer) && r.1.currentPlayer == s.currentPlayer
    ensures r.0 && !r.1.gameOver ==> r.1.winner == s.winner && r.1.currentPlayer == Other(s.currentPlayer)
    // the opponent is sent to the sub-board named by the cell just played, unless it is won
    ensures r.0 ==> r.1.nextBoard == (if r.1.bigBoardWinners[small] == None then Some(small) else None)
  {
    if s.gameOver then (false, s)
    else if s.nextBoard.Some? && big != s.nextBoard.value then (false, s)
    else if s.boards[big][small].Some? || s.bigBoardWinners[big].Some? then (false, s)
    else
      var p := s.currentPlayer;
      var boards := s.boards[big := s.boards[big][small := Some(p)]];
      var placed := s.(boards := boards);
      var wonSmall := CheckSmallBoardWinner(placed, big, p);
      var afterSmall := if wonSmall then placed.(bigBoardWinners := s.bigBoardWinners[big := Some(p)]) else placed;
      var wonGame := wonSmall && CheckBigGameWinner(afterSmall, p);
      var afterBig := if wonGame then afterSmall.(gameOver := true, winner := Some(p)) else afterSmall;
      var forced := afterBig.(nextBoard := if afterBig.bigBoardWinners[small] == None then Some(small) else None);
      var next := if !forced.gameOver then forced.(currentPlayer := Other(p)) else forced;
      (true, next)
  }
}
