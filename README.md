# Tic-tac-toe game engine

A Dafny model of the game engine of a SwiftUI tic-tac-toe app in which a human plays
against the computer on a 3×3 board. The board has nine slots, numbered row-major
from 0 to 8. Each slot is empty or holds a move. A move is a player and the
`boardIndex` it was made on.

The app holds two copies of the engine, and the model keeps both:

- `ViewModel` (`game_view_model.dfy`) models `GameViewModel.swift`. It has a win check
  over the eight lines and a move heuristic for the computer. The heuristic first
  completes the computer's own pattern, then takes the centre, then blocks a human
  pattern, and otherwise picks a random free square. It also has the turn protocol:
  the human's move, the delayed computer step, and reset.
- `ContentViewEngine` (`content_view.dfy`) models the earlier engine in
  `ContentView.swift`. Its computer picks any free square, and its win table has
  `{3, 5, 8}` where the third column `{2, 5, 8}` belongs.
- `Board` (`board.dfy`) holds what both files define with the same code: `Player`,
  `Move`, the occupancy test, the player's positions and the draw test. It also
  holds the model's own reference definition of the rows, columns and diagonals,
  drawn from the grid's geometry, which the tables are compared against.

Modelling choices:

- The occupancy test looks for any move whose `boardIndex` matches. It does not
  look at the slot itself. The model keeps `boardIndex` and proves that every move
  sits in the slot it names (`WellIndexed`). Under that invariant the source's test
  means "the slot is filled".
- The pattern tables are Swift `Set<Set<Int>>`, so their iteration order is not
  fixed. The heuristic loops over a set and picks the next pattern with `:|`. Its
  contract therefore says "some qualifying square", never "the first".
- The random retry loop is modelled as a choice of any free square. It needs one
  free square to exist. The source's loop would spin forever on a full board.
- The human's move and the delayed closure are two methods: `ProcessPlayerMove` or
  `TapSquare`, then `ComputerStep`. The lock flag is enforced only by the view, which
  disables the board. So "not locked" is a precondition of the human's move. A
  locked board always has a free square, so `ComputerStep` can always run.
- `GameViewModel` carries a stronger invariant, `TurnInvariant`. The centre is free
  only while the computer has not moved. Before the computer's first move, the
  human holds at most one square. `CommentOrderAgrees` follows from it. The comment
  above `determineComputerMovePosition` puts blocking before the centre. The code
  takes the centre first. In every state the view model reaches, both orders allow
  the same squares.
- `squareIsOccupied` (ContentView.swift:126-132) and `checkForDrawCondition`
  (ContentView.swift:185-193) are the same expressions as the view model's
  `isSquareOccupied` and `checkForDrawCondition`. Each pair is modelled once, by
  `Board.IsSquareOccupied` and `Board.CheckForDrawCondition`.

How the app behaves in cases where its code matters:

- The draw test only counts nine filled slots. It does not rule out a win; the
  callers test for a win first.
- A tap on an occupied square places nothing. The checks still run, the board
  still locks, and the computer still gets a move.
- Where several patterns qualify, no pattern order is fixed.
- The centre is taken before a block, whatever the comment says.

## Model

| member | source | states |
|---|---|---|
| `Board.EmptyBoard` | Tic-Tac-Toe/GameViewModel.swift:19-21 | a new board has nine slots, all empty |
| `Board.IsSquareOccupied` | Tic-Tac-Toe/GameViewModel.swift:77-83 | definition: some slot holds a move whose boardIndex is the index; characterised by `Board.OccupiedIffFilled` |
| `Board.Positions` | Tic-Tac-Toe/GameViewModel.swift:180-183 | definition: the boardIndex of each of the player's moves; characterised by `Board.PositionsOfWellIndexed` and `Board.PlaceIntoEmpty` |
| `Board.OccupiedIffFilled` | Tic-Tac-Toe/GameViewModel.swift:77-83 | under the slot invariant, the boardIndex-based occupancy test holds iff the index is on the board and its slot holds a move |
| `Board.PositionsOfWellIndexed` | Tic-Tac-Toe/GameViewModel.swift:180-183 | under the slot invariant, a player's positions are exactly the slots that hold that player's move |
| `Board.FilledCount` | Tic-Tac-Toe/GameViewModel.swift:204 | the number of non-nil slots never exceeds the number of slots |
| `Board.CheckForDrawCondition` | Tic-Tac-Toe/GameViewModel.swift:197-205 | definition: the non-nil count is nine; characterised by `Board.DrawIffFull` |
| `Board.FilledCountIsLength` | Tic-Tac-Toe/GameViewModel.swift:197-205 | the non-nil count equals the slot count iff every slot holds a move |
| `Board.DrawIffFull` | Tic-Tac-Toe/ContentView.swift:185-193 | the draw test holds iff all nine slots are filled, whatever the win status |
| `Board.EmptyBoardIsFresh` | Tic-Tac-Toe/GameViewModel.swift:207-212 | after reset, the board keeps the slot invariant, is not full, is not a draw, and no player holds a square or a pattern |
| `Board.PlaceIntoEmpty` | Tic-Tac-Toe/GameViewModel.swift:30-32 | placing a move into an empty slot keeps the slot invariant, adds exactly that square to the mover's positions, and leaves the other player's positions unchanged |
| `Board.WinIsStable` | Tic-Tac-Toe/GameViewModel.swift:189-192 | a pattern a player holds stays held after any further move into an empty slot |
| `Board.LinesAsSquares` | Tic-Tac-Toe/GameViewModel.swift:166-175 | the rows, columns and diagonals, defined by grid geometry, are exactly the eight triples listed |
| `ViewModel.MoveAllowed` | Tic-Tac-Toe/GameViewModel.swift:89-158 | definition: the heuristic's rules in order (free square; complete a computer pattern; else free centre; else block a human pattern; else any free square), each over some qualifying pattern; established by `ViewModel.DetermineComputerMovePosition` and used by `ViewModel.CorrectedHeuristicTakesWin` and `ViewModel.CommentOrderAgrees` |
| `ViewModel.FindCompletingSquare` | Tic-Tac-Toe/GameViewModel.swift:110-121 | the pattern loop either returns a free on-board square that completes some pattern, or proves that no pattern has exactly one free square missing |
| `ViewModel.DetermineComputerMovePosition` | Tic-Tac-Toe/GameViewModel.swift:89-158 | when a square is free, the result is a free square in 0..<9; if some computer pattern lacks one free square, the result is such a square; otherwise a free centre is taken; otherwise, if the centre is taken and a human pattern lacks one free square, the result blocks one such pattern |
| `ViewModel.TablesOnBoard` | Tic-Tac-Toe/GameViewModel.swift:97-106 | every square either table names is on the board |
| `ViewModel.CheckWinCondition` | Tic-Tac-Toe/GameViewModel.swift:160-195 | definition: some pattern of the eight-line table is a subset of the player's positions; characterised by `ViewModel.CheckWinConditionIffLine` |
| `ViewModel.WinPatternsAreLines` | Tic-Tac-Toe/GameViewModel.swift:166-175 | the win check's table contains exactly the geometric lines |
| `ViewModel.CheckWinConditionIffLine` | Tic-Tac-Toe/GameViewModel.swift:160-195 | the win check holds iff the player's positions include all three squares of a row, column or diagonal |
| `ViewModel.HeuristicTableDiffers` | Tic-Tac-Toe/GameViewModel.swift:97-106 | the heuristic's table lacks the third column, contains the non-line {3, 5, 8}, and otherwise matches the win table |
| `ViewModel.CorrectedHeuristicTakesWin` | Tic-Tac-Toe/GameViewModel.swift:107-121 | with the correct table, whenever a free square would win for the computer, every square the heuristic may choose is free and wins |
| `ViewModel.HeuristicMissesColumnWin` | Tic-Tac-Toe/GameViewModel.swift:103 | on a board the view model reaches (human 4, computer 2, human 3, computer 5, human 6), the table as written forces the block at 0, which does not win, although taking 8 would win |
| `ViewModel.FirstReplyIsCentre` | Tic-Tac-Toe/GameViewModel.swift:123-127 | while the computer holds no square and the centre is free, the only allowed choice is the centre, whatever the human threatens |
| `ViewModel.BlocksOnlyThreat` | Tic-Tac-Toe/GameViewModel.swift:131-145 | with the centre taken by the computer and the human on 0 and 1, the only allowed choice is the block at 2 |
| `ViewModel.CommentOrderAgrees` | Tic-Tac-Toe/GameViewModel.swift:85-127 | in every reachable state, the code's order (centre before block) and the comment's order (block before centre) allow exactly the same squares |
| `ViewModel.FirstHumanMoveContinues` | Tic-Tac-Toe/GameViewModel.swift:36-51 | with no computer move and at most one human square, there is no human win and no full board, so the turn passes to the computer |
| `ViewModel.GameViewModel.constructor` | Tic-Tac-Toe/GameViewModel.swift:19-23 | the game starts with nine empty slots, unlocked, with no alert |
| `ViewModel.GameViewModel.ProcessPlayerMove` | Tic-Tac-Toe/GameViewModel.swift:25-51 | an empty target slot gets the human's move and nothing else changes; an occupied target leaves the board as it was; a human win sets the human-win alert and stays unlocked; otherwise a full board sets the draw alert and stays unlocked; otherwise the board locks and the alert is untouched; the turn invariant is kept |
| `ViewModel.GameViewModel.ComputerStep` | Tic-Tac-Toe/GameViewModel.swift:53-74 | exactly one previously empty slot, one the heuristic allows, gets the computer's move; the board unlocks; a computer win sets its alert, else a full board sets the draw alert, else the alert is untouched; the turn invariant is kept |
| `ViewModel.GameViewModel.ResetGame` | Tic-Tac-Toe/GameViewModel.swift:207-212 | the board becomes nine empty slots; the lock and the alert are unchanged |
| `ContentViewEngine.DetermineComputerMovePosition` | Tic-Tac-Toe/ContentView.swift:134-146 | when a square is free, the result is some free square in 0..<9, with no win, block or centre preference |
| `ContentViewEngine.CheckWinCondition` | Tic-Tac-Toe/ContentView.swift:148-183 | definition: some pattern of the view's table is a subset of the player's positions; characterised by `ContentViewEngine.CheckWinConditionMeaning` |
| `ContentViewEngine.CheckWinConditionMeaning` | Tic-Tac-Toe/ContentView.swift:148-183 | the view's win check holds iff the player holds a line other than the third column, or holds {3, 5, 8} |
| `ContentViewEngine.ThirdColumnIsNoWin` | Tic-Tac-Toe/ContentView.swift:154-163 | holding exactly {2, 5, 8}, a line, is not a win for the view |
| `ContentViewEngine.PhantomPatternWins` | Tic-Tac-Toe/ContentView.swift:160 | holding {3, 5, 8}, which is no line, is a win for the view |
| `ContentViewEngine.ThirdColumnGameGoesOn` | Tic-Tac-Toe/ContentView.swift:63-79 | on a board the view can reach (human on 2, 5, 8; computer on 0, 1) the human holds the third column, yet neither the win check nor the draw check fires, so play goes on |
| `ContentViewEngine.ContentView.constructor` | Tic-Tac-Toe/ContentView.swift:18-22 | the view starts with nine empty slots, unlocked, with no alert |
| `ContentViewEngine.ContentView.TapSquare` | Tic-Tac-Toe/ContentView.swift:53-79 | an empty slot i gets the human's move and nothing else changes; an occupied slot leaves the board as it was; the human-win check comes before the draw check and either returns before the lock; otherwise the board locks |
| `ContentViewEngine.ContentView.ComputerStep` | Tic-Tac-Toe/ContentView.swift:81-101 | exactly one previously empty slot gets the computer's move; the board unlocks; the computer-win check comes before the draw check |
| `ContentViewEngine.ContentView.ResetGame` | Tic-Tac-Toe/ContentView.swift:195-200 | the board becomes nine empty slots; the lock and the alert are unchanged |

## Findings

| source | as written | input that shows it | evidently intended | confidence | as-written member | corrected member |
|---|---|---|---|---|---|---|
| Tic-Tac-Toe/ContentView.swift:160 | the win table lists `[3, 5, 8]` | human on 2, 5, 8 and computer on 0, 1 (the random computer can play this) | `[2, 5, 8]`, the third column, so this board is a human win | proved, not executed | `ContentViewEngine.ThirdColumnGameGoesOn` | `ViewModel.CheckWinConditionIffLine` |
| Tic-Tac-Toe/GameViewModel.swift:103 | the heuristic's table lists `[3, 5, 8]` | human 4, computer 2 (random), human 3, computer 5 (forced block), human 6; the board meets the turn invariant | `[2, 5, 8]`, so the computer plays 8 and wins | proved, not executed | `ViewModel.HeuristicMissesColumnWin` | `ViewModel.CorrectedHeuristicTakesWin` |

Each corrected member states the intended property over the correct eight lines
(`ViewModel.WinPatterns`). The view model's own win check already uses that table.
The turn protocols keep the tables as written, because that is what the app plays.

## Left out

- SwiftUI rendering is not modelled: views, grids, geometry, squares, indicators and the glyph names. It holds no game logic.
- Alert titles, messages, button text and `UUID` ids are not modelled. The alert is a three-valued enum.
- SwiftUI clears the alert when it is dismissed, and the dismiss button calls reset. Neither is modelled. The model does not block human moves while an alert is showing; in the app, the modal alert does that.
- The 0.5 s `DispatchQueue.main.asyncAfter` delay is not modelled. The delayed closure is the separate `ComputerStep` method, with no timing or concurrency.
- `ViewModel.DetermineComputerMovePosition`: the random fallback is any free square. Its uniform distribution is not modelled, and neither is the retry loop, which ends only with probability 1.
- `ContentViewEngine.DetermineComputerMovePosition`: states only that the result is a free square. Its uniform distribution and the retry loop are not modelled.
- An index outside 0..<9 would crash the Swift array access. The view only passes 0..<9, so that range is a precondition.
