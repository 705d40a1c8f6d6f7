/**
 * Sequences of clicks: the properties that relate many calls of `MakeMove`.
 * A rejected move is simply ignored, as the page ignores a click that
 * `makeMove` refuses.
 */
module Runs {
  import opened Wrappers
  import opened Marks
  import opened Lines
  import opened Game
  import opened Invariant

  /** One attempted move: a sub-board and a cell of it. */
  datatype Move = Move(big: nat, small: nat)

  predicate MovesInRange(moves: seq<Move>)
  {
    forall k :: 0 <= k < |moves| ==> moves[k].big < 9 && moves[k].small < 9
  }

  /** The state after attempting `moves` in order from `s`. */
  function Play(s: GameState, moves: seq<Move>): (t: GameState)
    requires WellFormed(s) && MovesInRange(moves)
    ensures WellFormed(t)
    decreases |moves|
  {
    if moves == [] then s
    else Play(MakeMove(s, moves[0].big, moves[0].small).1, moves[1..])
  }

  /** How many of `moves` are accepted when attempted in order from `s`. */
  function Accepted(s: GameState, moves: seq<Move>): nat
    requires WellFormed(s) && MovesInRange(moves)
    decreases |moves|
  {
    if moves == [] then 0
    else
      var (ok, t) := MakeMove(s, moves[0].big, moves[0].small);
      (if ok then 1 else 0) + Accepted(t, moves[1..])
  }

  /** The invariant holds after any sequence of attempts. */
  lemma {:induction false} PlayPreservesValid(s: GameState, moves: seq<Move>)
    requires Valid(s) && MovesInRange(moves)
    ensures Valid(Play(s, moves))
    decreases |moves|
  {
    if moves != [] {
      MakeMovePreservesValid(s, moves[0].big, moves[0].small);
      PlayPreservesValid(MakeMove(s, moves[0].big, moves[0].small).1, moves[1..]);
    }
  }

  /** Every state reachable from a new game satisfies the invariant. */
  lemma ReachableStatesValid(moves: seq<Move>)
    requires MovesInRange(moves)
    ensures Valid(Play(NewGame(), moves))
  {
    NewGameValid();
    PlayPreservesValid(NewGame(), moves);
  }

  /** A mark, once placed, is never overwritten. */
  lemma {:induction false} MarksArePermanent(s: GameState, moves: seq<Move>, b: nat, c: nat)
    requires WellFormed(s) && MovesInRange(moves) && b < 9 && c < 9
    requires s.boards[b][c].Some?
    ensures Play(s, moves).boards[b][c] == s.boards[b][c]
    decreases |moves|
  {
    if moves != [] {
      MarksArePermanent(MakeMove(s, moves[0].big, moves[0].small).1, moves[1..], b, c);
    }
  }

  /**
   * A won sub-board keeps its winner and its cells for the rest of the game:
   * every later move into it is rejected.
   */
  lemma {:induction false} WonBoardIsFrozen(s: GameState, moves: seq<Move>, b: nat)
    requires WellFormed(s) && MovesInRange(moves) && b < 9
    requires s.bigBoardWinners[b].Some?
    ensures Play(s, moves).bigBoardWinners[b] == s.bigBoardWinners[b]
    ensures Play(s, moves).boards[b] == s.boards[b]
    decreases |moves|
  {
    if moves != [] {
      var t := MakeMove(s, moves[0].big, moves[0].small).1;
      assert t.boards[b] == s.boards[b] by {
        forall c | 0 <= c < 9
          ensures t.boards[b][c] == s.boards[b][c]
        {
        }
      }
      WonBoardIsFrozen(t, moves[1..], b);
    }
  }

  /** Once the game is over, no attempt changes anything. */
  lemma {:induction false} FinishedGameIsFinal(s: GameState, moves: seq<Move>)
    requires WellFormed(s) && MovesInRange(moves) && s.gameOver
    ensures Play(s, moves) == s
    ensures Accepted(s, moves) == 0
    decreases |moves|
  {
    if moves != [] {
      FinishedGameIsFinal(s, moves[1..]);
    }
  }

  /** Each accepted move adds exactly one mark. */
  lemma {:induction false} MarksCountAcceptedMoves(s: GameState, moves: seq<Move>)
    requires WellFormed(s) && MovesInRange(moves)
    ensures TotalMarks(Play(s, moves).boards) == TotalMarks(s.boards) + Accepted(s, moves)
    decreases |moves|
  {
    if moves != [] {
      var m := moves[0];
      var (ok, t) := MakeMove(s, m.big, m.small);
      if ok {
        AcceptedMove(s, m.big, m.small);
        TotalMarksWrite(s.boards, m.big, m.small, s.currentPlayer);
      }
      MarksCountAcceptedMoves(t, moves[1..]);
    }
  }

  /** The turn parity alone is kept by any sequence of attempts. */
  lemma {:induction false} PlayKeepsTurnParity(s: GameState, moves: seq<Move>)
    requires WellFormed(s) && TurnParity(s) && MovesInRange(moves)
    ensures TurnParity(Play(s, moves))
    decreases |moves|
  {
    if moves != [] {
      MakeMoveKeepsTurnParity(s, moves[0].big, moves[0].small);
      PlayKeepsTurnParity(MakeMove(s, moves[0].big, moves[0].small).1, moves[1..]);
    }
  }

  /**
   * From a state with no marks and X to move, the player to move is fixed by
   * the number of accepted moves.
   */
  lemma TurnFollowsAcceptedCount(s: GameState, moves: seq<Move>)
    requires WellFormed(s) && MovesInRange(moves)
    requires TotalMarks(s.boards) == 0 && s.currentPlayer == X && !s.gameOver
    ensures var t := Play(s, moves);
            t.currentPlayer == X <==> (Accepted(s, moves) + (if t.gameOver then 1 else 0)) % 2 == 0
  {
    PlayKeepsTurnParity(s, moves);
    MarksCountAcceptedMoves(s, moves);
  }

  /**
   * From a new game, while the game is not over, X is to move after an even
   * number of accepted moves and O after an odd number; after the winning
   * move the winner stays the current player.
   */
  lemma TurnAlternates(moves: seq<Move>)
    requires MovesInRange(moves)
    ensures var t := Play(NewGame(), moves);
            t.currentPlayer == X <==> (Accepted(NewGame(), moves) + (if t.gameOver then 1 else 0)) % 2 == 0
  {
    NewGameHasNoMarks();
    TurnFollowsAcceptedCount(NewGame(), moves);
  }

  /** Restarting gives the constructor's state, so restarting twice is restarting once. */
  lemma RestartIsIdempotent(s: GameState)
    ensures Restart(Restart(s)) == Restart(s)
    ensures Restart(s) == NewGame()
  {
  }

  /** Every line reaches past the first two cells, so marks only there form no line. */
  lemma NoLineInFirstTwoCells(g: seq<Cell>, p: Player)
    requires |g| == 9 && forall j :: 2 <= j < 9 ==> g[j] == None
    ensures !ThreeInARow(g, p)
  {
    PatternsAreLines(g, p);
    forall i | 0 <= i < |WinPatterns|
      ensures !Completes(g, WinPatterns[i], p)
    {
      assert 2 <= WinPatterns[i][2] < 9;
    }
  }

  /**
   * Opening: X takes cell 0 of board 0 and sends O to board 0; O may not
   * play elsewhere nor on the taken cell, and O's cell 1 sends X to board 1.
   */
  lemma OpeningExchange()
    ensures var s0 := NewGame();
            var (ok1, s1) := MakeMove(s0, 0, 0);
            && ok1 && s1.nextBoard == Some(0) && s1.currentPlayer == O
            && MakeMove(s1, 1, 0) == (false, s1)
            && MakeMove(s1, 0, 0) == (false, s1)
            && var (ok2, s2) := MakeMove(s1, 0, 1);
               ok2 && s2.nextBoard == Some(1) && s2.currentPlayer == X
  {
    var s0 := NewGame();
    var (ok1, s1) := MakeMove(s0, 0, 0);
    NoLineInFirstTwoCells(s1.boards[0], X);
    var (ok2, s2) := MakeMove(s1, 0, 1);
    NoLineInFirstTwoCells(s2.boards[0], O);
  }
}
