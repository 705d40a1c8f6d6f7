/**
 * The invariant every state reachable from a new game satisfies, and its
 * preservation by `MakeMove`.
 */
module Invariant {
  import opened Wrappers
  import opened Marks
  import opened Lines
  import opened Game

  /** The board-winner entry agrees with the lines on the sub-board's cells. */
  ghost predicate SubBoardSettled(g: seq<Cell>, w: Cell)
    requires |g| == 9
  {
    match w
    case None => !ThreeInARow(g, X) && !ThreeInARow(g, O)
    case Some(p) => ThreeInARow(g, p) && !ThreeInARow(g, Other(p))
  }

  /** Number of marks on one grid. */
  function CountMarks(g: seq<Cell>): nat
  {
    if g == [] then 0 else (if g[0].Some? then 1 else 0) + CountMarks(g[1..])
  }

  /** Number of marks on all sub-boards together. */
  function TotalMarks(bs: seq<seq<Cell>>): nat
  {
    if bs == [] then 0 else CountMarks(bs[0]) + TotalMarks(bs[1..])
  }

  /** The forced board, if any, is a sub-board nobody has won. */
  ghost predicate ForcedBoardOpen(s: GameState)
    requires WellFormed(s)
  {
    s.nextBoard.Some? ==> s.nextBoard.value < 9 && s.bigBoardWinners[s.nextBoard.value] == None
  }

  /** Each sub-board's recorded winner is the one player with a line on it. */
  ghost predicate BoardsSettled(s: GameState)
    requires WellFormed(s)
  {
    forall b :: 0 <= b < 9 ==> SubBoardSettled(s.boards[b], s.bigBoardWinners[b])
  }

  /** The game is over exactly when the player to move holds a meta-board line, and then is the winner. */
  ghost predicate OutcomeConsistent(s: GameState)
    requires WellFormed(s)
  {
    && (s.gameOver <==> s.winner.Some?)
    && (s.gameOver ==> && s.winner == Some(s.currentPlayer)
                       && ThreeInARow(s.bigBoardWinners, s.currentPlayer)
                       && !ThreeInARow(s.bigBoardWinners, Other(s.currentPlayer)))
    && (!s.gameOver ==> !ThreeInARow(s.bigBoardWinners, X) && !ThreeInARow(s.bigBoardWinners, O))
  }

  /**
   * X moves after an even number of marks, O after an odd number; a finished
   * game keeps the winner as `currentPlayer`, one mark past its turn.
   */
  ghost predicate TurnParity(s: GameState)
    requires WellFormed(s)
  {
    s.currentPlayer == X <==> (TotalMarks(s.boards) + (if s.gameOver then 1 else 0)) % 2 == 0
  }

  /** What holds of every state reachable from `NewGame`. */
  ghost predicate Valid(s: GameState)
  {
    && WellFormed(s)
    && ForcedBoardOpen(s)
    && BoardsSettled(s)
    && OutcomeConsistent(s)
    && TurnParity(s)
  }

  /** Writing a mark into an empty cell adds one to the count. */
  lemma {:induction false} CountMarksWrite(g: seq<Cell>, j: nat, p: Player)
    requires j < |g| && g[j] == None
    ensures CountMarks(g[j := Some(p)]) == CountMarks(g) + 1
  {
    if j > 0 {
      assert g[j := Some(p)][1..] == g[1..][j - 1 := Some(p)];
      CountMarksWrite(g[1..], j - 1, p);
    } else {
      assert g[j := Some(p)][1..] == g[1..];
    }
  }

  /** Writing a mark into an empty cell of one sub-board adds one to the total. */
  lemma {:induction false} TotalMarksWrite(bs: seq<seq<Cell>>, b: nat, j: nat, p: Player)
    requires b < |bs| && j < |bs[b]| && bs[b][j] == None
    ensures TotalMarks(bs[b := bs[b][j := Some(p)]]) == TotalMarks(bs) + 1
  {
    if b > 0 {
      assert bs[b := bs[b][j := Some(p)]][1..] == bs[1..][b - 1 := bs[1..][b - 1][j := Some(p)]];
      TotalMarksWrite(bs[1..], b - 1, j, p);
    } else {
      assert bs[b := bs[b][j := Some(p)]][1..] == bs[1..];
      CountMarksWrite(bs[0], j, p);
    }
  }

  lemma NoMarksOnEmpty(g: seq<Cell>)
    requires forall j :: 0 <= j < |g| ==> g[j] == None
    ensures CountMarks(g) == 0
  {
  }

  lemma NoMarksOnEmptyBoards(bs: seq<seq<Cell>>)
    requires forall b :: 0 <= b < |bs| ==> bs[b] == EmptyGrid
    ensures TotalMarks(bs) == 0
  {
    if bs != [] {
      NoMarksOnEmpty(bs[0]);
      NoMarksOnEmptyBoards(bs[1..]);
    }
  }

  /** An empty grid holds no line. */
  lemma EmptyHasNoLine(g: seq<Cell>, p: Player)
    requires |g| == 9 && forall j :: 0 <= j < 9 ==> g[j] == None
    ensures !ThreeInARow(g, p)
  {
    forall row: nat | row < 3
      ensures !RowFilled(g, row, p)
    {
      assert At(g, row, 0) == None;
    }
    forall col: nat | col < 3
      ensures !ColumnFilled(g, col, p)
    {
      assert At(g, 0, col) == None;
    }
    assert At(g, 0, 0) == None;
    assert At(g, 0, 2) == None;
  }

  /** The initial state has no marks. */
  lemma NewGameHasNoMarks()
    ensures TotalMarks(NewGame().boards) == 0
  {
    NoMarksOnEmptyBoards(NewGame().boards);
  }

  lemma NewGameBoardsSettled()
    ensures BoardsSettled(NewGame())
  {
    var s := NewGame();
    forall b | 0 <= b < 9
      ensures SubBoardSettled(s.boards[b], s.bigBoardWinners[b])
    {
      EmptyHasNoLine(s.boards[b], X);
      EmptyHasNoLine(s.boards[b], O);
    }
  }

  /** The initial state satisfies the invariant. */
  lemma NewGameValid()
    ensures Valid(NewGame())
  {
    var s := NewGame();
    assert TurnParity(s) by {
      NewGameHasNoMarks();
    }
    assert BoardsSettled(s) by {
      NewGameBoardsSettled();
    }
    assert OutcomeConsistent(s) by {
      EmptyHasNoLine(s.bigBoardWinners, X);
      EmptyHasNoLine(s.bigBoardWinners, O);
    }
  }

  /**
   * `t` is what an accepted move at (`big`, `small`) makes of `s`: the game
   * was running and the cell and board were free; the mover's mark is
   * written; the board winner records the mover iff the board now has the
   * mover's line; the game ends iff that completes a meta-board line; the
   * turn passes unless it ended; the opponent is forced to `small` unless
   * that board is won. This is the accepted branch of `MakeMove`'s contract
   * gathered into one relation (`AcceptedMove` derives it from that
   * contract), so that the preservation lemmas below speak about a step
   * without unfolding `MakeMove`.
   */
  ghost predicate AcceptedStep(s: GameState, t: GameState, big: nat, small: nat)
    requires WellFormed(s) && WellFormed(t) && big < 9 && small < 9
  {
    var p := s.currentPlayer;
    && !s.gameOver && s.boards[big][small] == None && s.bigBoardWinners[big] == None
    && t.boards == s.boards[big := s.boards[big][small := Some(p)]]
    && t.bigBoardWinners == s.bigBoardWinners[big := if ThreeInARow(t.boards[big], p) then Some(p) else None]
    && (t.gameOver <==> t.bigBoardWinners[big] == Some(p) && ThreeInARow(t.bigBoardWinners, p))
    && t.currentPlayer == (if t.gameOver then p else Other(p))
    && t.winner == (if t.gameOver then Some(p) else s.winner)
    && t.nextBoard == (if t.bigBoardWinners[small] == None then Some(small) else None)
  }

  /** An accepted `MakeMove` is an `AcceptedStep`. */
  lemma AcceptedMove(s: GameState, big: nat, small: nat)
    requires WellFormed(s) && big < 9 && small < 9
    requires MakeMove(s, big, small).0
    ensures AcceptedStep(s, MakeMove(s, big, small).1, big, small)
  {
  }

  lemma StepKeepsForcedBoardOpen(s: GameState, t: GameState, big: nat, small: nat)
    requires WellFormed(s) && WellFormed(t) && big < 9 && small < 9
    requires AcceptedStep(s, t, big, small)
    ensures ForcedBoardOpen(t)
  {
  }

  lemma StepKeepsBoardsSettled(s: GameState, t: GameState, big: nat, small: nat)
    requires WellFormed(s) && WellFormed(t) && big < 9 && small < 9
    requires BoardsSettled(s) && AcceptedStep(s, t, big, small)
    ensures BoardsSettled(t)
  {
    var p := s.currentPlayer;
    WriteKeepsOtherLines(s.boards[big], small, p, Other(p));
    assert SubBoardSettled(s.boards[big], None);
    forall b | 0 <= b < 9
      ensures SubBoardSettled(t.boards[b], t.bigBoardWinners[b])
    {
      if b != big {
        assert t.boards[b] == s.boards[b];
        assert SubBoardSettled(s.boards[b], s.bigBoardWinners[b]);
      }
    }
  }

  lemma StepKeepsOutcomeConsistent(s: GameState, t: GameState, big: nat, small: nat)
    requires WellFormed(s) && WellFormed(t) && big < 9 && small < 9
    requires OutcomeConsistent(s) && AcceptedStep(s, t, big, small)
    ensures OutcomeConsistent(t)
  {
    var p := s.currentPlayer;
    if t.bigBoardWinners[big] == Some(p) {
      WriteKeepsOtherLines(s.bigBoardWinners, big, p, Other(p));
    } else {
      assert t.bigBoardWinners == s.bigBoardWinners;
    }
  }

  /** One mark more, and the turn either passes or (on the winning move) stays. */
  lemma ParityStep(n: nat, p: Player, over: bool, next: Player)
    requires p == X <==> n % 2 == 0
    requires next == (if over then p else Other(p))
    ensures next == X <==> (n + 1 + (if over then 1 else 0)) % 2 == 0
  {
  }

  lemma StepKeepsTurnParity(s: GameState, t: GameState, big: nat, small: nat)
    requires WellFormed(s) && WellFormed(t) && big < 9 && small < 9
    requires TurnParity(s) && AcceptedStep(s, t, big, small)
    ensures TurnParity(t)
  {
    var n := TotalMarks(s.boards);
    TotalMarksWrite(s.boards, big, small, s.currentPlayer);
    ParityStep(n, s.currentPlayer, t.gameOver, t.currentPlayer);
  }

  lemma MakeMoveKeepsTurnParity(s: GameState, big: nat, small: nat)
    requires WellFormed(s) && TurnParity(s) && big < 9 && small < 9
    ensures TurnParity(MakeMove(s, big, small).1)
  {
    var (ok, t) := MakeMove(s, big, small);
    if ok {
      AcceptedMove(s, big, small);
      StepKeepsTurnParity(s, t, big, small);
    }
  }

  /** Every accepted or rejected move keeps the invariant. */
  lemma MakeMovePreservesValid(s: GameState, big: nat, small: nat)
    requires Valid(s) && big < 9 && small < 9
    ensures Valid(MakeMove(s, big, small).1)
  {
    var (ok, t) := MakeMove(s, big, small);
    if ok {
      AcceptedMove(s, big, small);
      StepKeepsForcedBoardOpen(s, t, big, small);
      StepKeepsBoardsSettled(s, t, big, small);
      StepKeepsOutcomeConsistent(s, t, big, small);
      StepKeepsTurnParity(s, t, big, small);
    }
  }

  /**
   * No draw is recorded: a forced sub-board whose cells are all filled
   * rejects every move, so the game cannot continue.
   */
  lemma ForcedIntoFullBoardIsStuck(s: GameState, big: nat, small: nat)
    requires WellFormed(s) && big < 9 && small < 9
    requires s.nextBoard.Some? && s.nextBoard.value < 9
    requires forall c :: 0 <= c < 9 ==> s.boards[s.nextBoard.value][c].Some?
    ensures MakeMove(s, big, small) == (false, s)
  {
  }

  /**
   * The forced-board rule ignores whether the board is full: a move whose cell index names a full
   * sub-board that nobody won sends the opponent there, and the game is stuck.
   */
  lemma ForceIntoFullBoard(s: GameState, big: nat, small: nat, big': nat, small': nat)
    requires WellFormed(s) && big < 9 && small < 9 && big' < 9 && small' < 9
    requires MakeMove(s, big, small).0
    requires small != big && s.bigBoardWinners[small] == None
    requires forall c :: 0 <= c < 9 ==> s.boards[small][c].Some?
    ensures var t := MakeMove(s, big, small).1;
            && t.nextBoard == Some(small)
            && MakeMove(t, big', small') == (false, t)
  {
  }
}
