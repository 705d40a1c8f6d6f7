# Ultimate Tic-Tac-Toe rules engine in Dafny

A model of the rules engine of the `UltimateTicTacToe` class in `script.js`.
The game is nine 3x3 tic-tac-toe sub-boards laid out in a 3x3 meta-grid.
A move names a sub-board (`bigIndex`) and a cell in it (`smallIndex`), both
numbered 0..8 row-major. The cell's index chooses the sub-board the opponent
must play in next. Winning a sub-board marks it on the meta-board. Winning a
line of sub-boards wins the game.

The class mutates one object in place. The model is a value instead: a
`GameState` datatype whose fields are named after the class fields. The
transition `MakeMove` is a pure function returning `(accepted, newState)`.
A rejected move returns the input state unchanged.

Modules:

- `Wrappers` (wrappers.dfy): `Option`, used for JavaScript's `null`.
- `Marks` (marks.dfy): the players `X` and `O`, cells, and the turn toggle.
- `Lines` (lines.dfy): the 8-pattern win check shared by sub-boards and the
  meta-board. The same file holds an independent geometric definition,
  `ThreeInARow` (a full row, column or diagonal of the 3x3 grid).
- `Grid` (grid.dfy): `getBigBoardIndex` and `getSmallBoardIndex`.
- `Game` (game.dfy): the state, the constructor's initial state,
  `restartGame`, the two win checks and `makeMove`.
- `Invariant` (invariant.dfy): `Valid`, the invariant of every reachable
  state, and its preservation by `MakeMove`.
- `Runs` (runs.dfy): sequences of attempted moves, and the properties that
  relate many calls.

`Valid` has four parts:

- the forced board, if any, is a sub-board nobody has won;
- each sub-board's recorded winner holds a line there, and no other player
  does; an unwon sub-board holds no line for either player;
- the game is over exactly when a winner is recorded; the winner is then the
  current player and holds a meta-board line; while the game runs, nobody
  holds a meta-board line;
- X is to move exactly when the number of marks is even. After the winning
  move this count is off by one, because the winner stays `currentPlayer`.

Kept as the code has it:

- No draw state. A full sub-board with no line keeps its winner `null`
  (script.js:56-57). Line 67 can send the opponent into such a board, and
  then no move is legal. `ForceIntoFullBoard` and `ForcedIntoFullBoardIsStuck`
  state this.
- No range check on the indices (see "## Left out").
- No meta-board draw: a game in which nobody can complete a meta-board line
  simply continues or stalls.

## Model

| member | source | states |
|---|---|---|
| Marks.Other | script.js:71 | the player after `p` is the other of the two players |
| Lines.AllHold | script.js:88 | the inner `every` test is true iff every index of the pattern holds `p` |
| Lines.AnyComplete | script.js:87-89 | the outer `some` test is true iff some pattern of the list is completed by `p` |
| Lines.PatternsAreLines | script.js:81-85 | some of the 8 listed index triples is all `p` iff `p` holds a full row, column or diagonal of the 3x3 grid |
| Lines.HasLine | script.js:81-89 | the shared win check is true iff `p` holds a full row, column or diagonal |
| Lines.WriteKeepsOtherLines | script.js:53-57 | writing `p` into a cell gives no new line to the other player, so only the mover can win a board with this move |
| Grid.BigBoardIndex | script.js:28-30 | for `row`, `col` in 0..8 the result is in 0..8, its meta-row is the row's band `row / 3` and its meta-column is `col / 3` |
| Grid.SmallBoardIndex | script.js:32-36 | for `big` in 0..8 and `r`, `c` in 0..2 the flat index is in 0..80, its global row and column lie in sub-board `big`, at offset (`r`, `c`) inside it |
| Grid.SmallIndexInBoard | script.js:28-36 | `getBigBoardIndex(f / 9, f % 9)` recovers `big` from the flat index `f` |
| Grid.SmallIndexInjective | script.js:32-36 | two positions get the same flat index iff they are the same board, row and column |
| Grid.GlobalCellRoundTrip | script.js:28-36 | every global cell (`row`, `col`) is the flat index `9 * row + col` of its own sub-board and offset |
| Game.NewGame | script.js:3-11 | the constructed state: X to move, no forced board, not over, no winner, all 81 cells and all 9 board winners empty |
| Game.Restart | script.js:178-184 | restarting from any state yields exactly the constructor's state |
| Game.CheckSmallBoardWinner | script.js:79-90 | true iff `p` holds a full row, column or diagonal of sub-board `b` |
| Game.CheckBigGameWinner | script.js:92-102 | true iff `p` holds a full row, column or diagonal of the meta-board |
| Game.MakeMove | script.js:38-77 | rejected iff the game is over, or another board is forced, or the cell is taken, or the board is won; a rejection changes nothing. An accepted move writes the mover's mark into exactly the target cell. The board winner becomes the mover iff the board now has the mover's line; no other winner changes. The game ends iff that win completes a meta-board line; the winner is then the mover, who stays to move. Otherwise the turn passes and `winner` is unchanged. The next board is `smallIndex` if that board is unwon after the update, else any board |
| Invariant.NewGameHasNoMarks | script.js:9 | the constructed boards hold no mark |
| Invariant.NewGameBoardsSettled | script.js:9-11 | no constructed sub-board holds a line for either player |
| Invariant.NewGameValid | script.js:3-11 | the initial state satisfies `Valid` |
| Invariant.AcceptedMove | script.js:47-72 | an accepted move found the game running and the cell and board free, wrote the mover's mark there, set the board winner to the mover iff the board now has the mover's line, ended the game iff that completes a meta-board line, passed the turn unless the game ended, and forced `smallIndex` unless that board is won |
| Invariant.StepKeepsForcedBoardOpen | script.js:66-67 | after an accepted move the forced board, if any, is a board nobody has won |
| Invariant.StepKeepsBoardsSettled | script.js:47-57 | after an accepted move each board winner still holds a line on its board and nobody else does; unwon boards hold no line |
| Invariant.StepKeepsOutcomeConsistent | script.js:56-63 | after an accepted move the game is over iff a winner is recorded; the winner is the mover, holds a meta-board line and the opponent holds none; a running game has no meta-board line |
| Invariant.StepKeepsTurnParity | script.js:53-72 | after an accepted move, X is to move iff the mark count (plus one once the game is over) is even |
| Invariant.MakeMoveKeepsTurnParity | script.js:38-72 | the same parity holds after any call of `MakeMove`, accepted or rejected |
| Invariant.MakeMovePreservesValid | script.js:38-77 | every move, accepted or rejected, keeps `Valid`, including "the forced board is unwon" |
| Invariant.ForcedIntoFullBoardIsStuck | script.js:42-50 | when the forced board is full, every move is rejected and the state stays as it is |
| Invariant.ForceIntoFullBoard | script.js:66-67 | a move whose cell index names a full, unwon board forces the opponent there, and then no move is accepted |
| Runs.Play | script.js:143-145 | attempting a sequence of moves keeps the state's shape of 9 boards of 9 cells and 9 board winners |
| Runs.PlayPreservesValid | script.js:38-77 | any sequence of attempts from a `Valid` state ends in a `Valid` state |
| Runs.ReachableStatesValid | script.js:3-77 | every state reachable from a new game is `Valid`, so the forced board is always absent or an unwon board |
| Runs.MarksArePermanent | script.js:47-53 | a non-empty cell keeps its mark through any sequence of attempts |
| Runs.WonBoardIsFrozen | script.js:47-57 | a won board keeps its winner and all its cells through any sequence of attempts |
| Runs.FinishedGameIsFinal | script.js:39 | once the game is over, any sequence of attempts accepts nothing and changes nothing |
| Runs.MarksCountAcceptedMoves | script.js:52-53 | the number of marks grows by exactly the number of accepted moves |
| Runs.PlayKeepsTurnParity | script.js:69-72 | the turn-parity part of `Valid` survives any sequence of attempts |
| Runs.TurnFollowsAcceptedCount | script.js:69-72 | from an empty board with X to move, X is to move iff the accepted count (plus one once the game is over) is even |
| Runs.TurnAlternates | script.js:3-72 | from a new game, while not over, X moves after an even and O after an odd number of accepted moves; after the winning move the winner stays to move |
| Runs.RestartIsIdempotent | script.js:178-184 | restarting twice equals restarting once, and both equal a new game |
| Runs.OpeningExchange | script.js:38-77 | X at (0,0) forces board 0. O is then refused at (1,0) and at (0,0). O at (0,1) is accepted and forces board 1 |

## Left out

- `renderGame`, `updateStatus` and `setupEventListeners`: DOM building, CSS
  classes, colours, button enabling and status text are presentation only.
- The `DOMContentLoaded` bootstrap and the `initializeGame` calls in the
  constructor and in `restartGame`: page lifecycle and rendering I/O.
- Out-of-range indices: the code never checks them. With `bigIndex` in
  0..8 and `smallIndex` out of range, `boards[bigIndex][smallIndex]` is
  `undefined`, which is not `null`, so `makeMove` returns false (script.js:47).
  With `bigIndex` out of range, indexing `boards[bigIndex]` throws a
  TypeError, unless the guard at line 39 or 42 has already returned false.
  Nothing is ever written out of range. The model's `requires` of both
  indices in 0..8 leaves both cases out.
- A state of the wrong shape (not 9 boards of 9 cells and 9 board winners)
  is excluded by the `WellFormed` precondition. Only the constructor and
  `restartGame` create the arrays, and both give them this shape.
- Draws of a sub-board or of the whole game: the code has neither, so the
  model has neither.
- Game.MakeMove: on an accepted move that does not end the game, the model
  keeps `winner` as it was, as the code does. That it is `null` is proved
  for reachable states by `Valid`, not stated by `MakeMove` itself.
