# Checkers rules engine, modelled in Dafny

This project models `CheckersLogic`, the rules engine of a two-player console
checkers game. The engine holds an 8x8 board of cells (empty, a Green or Orange
man, a Green or Orange king), the two piece counters, the side to move, the
winner, and two scratch fields used while checking a move: the pending capture
list (`eaten_pieces`) and the visited-square set of the capture search (`memo`).

The model follows the engine as written, including its quirks:

- `check_basic_move` answers true when the destination is occupied.
- Only men are held to the forward direction, and the rule applies to moves of
  every length.
- The capture search never looks at the landing square of a jump.
- The search shares one visited set across all of its branches and returns
  Python's `None` (false) on a revisit.
- Nothing stops a move after a winner has been declared.

Files:

- `board.dfy` (module `Board`): cells, players, the grid, counting pieces, and
  the starting position.
- `capture.dfy` (module `Capture`): the capture search as the value-level
  function `Search`/`Expand`, and what it computes. It stays on the board,
  expands at most 64 squares, and succeeds exactly when a chain of open jumps
  reaches the target. On success the pending list is the squares that chain
  jumps over. On failure the list is untouched.
- `moves.dfy` (module `Moves`): relocating, clearing captured squares and
  crowning, as functions on boards. Also the lemmas for which squares a move
  changes and how the counts move.
- `logic.dfy` (module `Logic`): the class `CheckersLogic` with its fields
  updated in place. Each method is proved against the functions above. The
  `Move` method reproduces the console's turn step.

## Model

| member | source | states |
|---|---|---|
| Logic.StartingGrid | checkers_logic.py:17-33 | the nested loops leave exactly the starting position: men of Green on the dark squares of rows 0-2, of Orange on rows 5-7, everything else empty |
| Logic.CheckersLogic.InitGame | checkers_logic.py:15-39 | after a reset the board is the starting position, both counters are 12 and equal the pieces on the board, Green moves, there is no winner, and the capture list and memo are empty |
| Logic.CheckersLogic.constructor | checkers_logic.py:10-13 | a new engine is in the state `init_game` leaves |
| Board.IsInitialBoard | checkers_logic.py:17-33 | a grid holding the starting cell on every square is the starting position |
| Board.InitialRowCount | checkers_logic.py:24-32 | each row of the starting position holds four pieces of the side that starts there and none of the other |
| Board.InitialCounts | checkers_logic.py:34-35 | the starting position holds twelve pieces of each side, so the counters set by `init_game` are right |
| Logic.CheckersLogic.ChangePlayer | checkers_logic.py:41-43 | the turn passes to the other side |
| Logic.CheckersLogic.CheckValidPiece | checkers_logic.py:58-73 | true exactly when the square holds a man or king of the side to move |
| Logic.CheckersLogic.EatPieces | checkers_logic.py:75-90 | every square of the pending list is emptied (the board becomes `ClearAll` of the old board and list), the opponent's counter drops by the list's length, the mover's counter is unchanged, and the list is emptied |
| Moves.ClearAll | checkers_logic.py:81-83 | a square is empty afterwards exactly when it is in the capture list; every other square keeps its value |
| Moves.ClearAllCounts | checkers_logic.py:80-88 | clearing distinct squares that held opponent pieces lowers the opponent's piece count by the list's length and leaves the mover's |
| Board.SetAtCount | checkers_logic.py:82 | overwriting one cell changes a side's piece count only by the piece that left and the piece that arrived |
| Logic.CheckersLogic.PerformMove | checkers_logic.py:92-117 | the board becomes `AfterMove` of the old board and pending list, the opponent's counter drops by the list's length, the list is emptied, the winner is set as `check_end` decides, and the result is always true |
| Moves.AfterMoveCells | checkers_logic.py:105-113 | after a move, the end square holds the moving piece (the mover's king on its far row), the start square and every captured square are empty, and every other square is unchanged |
| Moves.MoveKeepsCounts | checkers_logic.py:75-117 | when the moving piece is the mover's, the end square was empty and the captures are distinct opponent pieces, the mover's piece count is unchanged and the opponent's drops by the number of captures, matching what `perform_move` does to the counters |
| Logic.CheckersLogic.CheckPiecePromotionAndPromote | checkers_logic.py:119-131 | the board becomes `Promote` of the old board for the side to move and the end square |
| Moves.Promote | checkers_logic.py:119-131 | a move ending on the mover's far row (row 7 for Green, row 0 for Orange) leaves the mover's king there; otherwise the square is unchanged; no other square changes; a king stays a king |
| Logic.CheckersLogic.CheckBasicMove | checkers_logic.py:133-146 | true exactly when the destination holds a piece (the occupied case, despite the name) |
| Logic.CheckersLogic.CheckOpposite | checkers_logic.py:148-161 | true exactly when the piece belongs to the other side |
| Board.Opposites | checkers_logic.py:159 | the pieces a side may capture are exactly the other side's man and king |
| Logic.CheckersLogic.CheckLongerMove | checkers_logic.py:164-221 | the recursive method leaves the result, the memo and the pending list exactly as the function `Search` computes them from the old memo and list |
| Logic.CheckersLogic.TryJump | checkers_logic.py:193-219 | one guarded branch of the search leaves result, memo and pending list as `Expand` computes them: a search from the landing square with the jumped square appended when the jump is open, otherwise no change |
| Capture.Search | checkers_logic.py:180-221 | a call adds its square to the memo and never removes one; on success the target is in the memo |
| Capture.JumpOpen | checkers_logic.py:193-219 | an open jump keeps both the jumped square and the landing square on the board |
| Capture.ExpandIgnoresFound | checkers_logic.py:189-219 | a branch depends only on the memo and pending list it is handed, not on whether earlier branches succeeded |
| Capture.SearchSkipsVisitedTarget | checkers_logic.py:180-188 | once the target is in the memo, no later call succeeds or touches the pending list, so the list is set at most once per search |
| Capture.SearchFailureKeepsPending | checkers_logic.py:180-221 | a failed search leaves the pending list as it was |
| Capture.SearchReachingTargetSucceeds | checkers_logic.py:180-221 | starting with the target unvisited, a search succeeds exactly when it visits the target |
| Capture.SearchFindsChain | checkers_logic.py:181-219 | on success the pending list is the captures made so far followed by the squares jumped over by a chain of open jumps from the current square to the target; that chain stands on no square twice and on none the memo held when the call began |
| Capture.ChainCons | checkers_logic.py:196-219 | an open jump followed by a chain from its landing square is a chain whose first capture is the jumped square |
| Capture.ChainEnd | checkers_logic.py:193-219 | every chain ends on the board; a Green man's chain climbs exactly two rows per capture and an Orange man's descends two rows per capture |
| Capture.ChainShift | checkers_logic.py:193-219 | a chain moves twice the sum of its row steps and twice the sum of its column steps |
| Capture.ChainParity | checkers_logic.py:193-219 | a chain ends an even number of rows and of columns from where it starts |
| Capture.ChainCaptureAt | checkers_logic.py:196-219 | every square a chain jumps over is on the board and held a piece of the opponent |
| Capture.SearchFailureIsClosed | checkers_logic.py:180-221 | when a search fails, every square it newly visited has all its open-jump landing squares visited too |
| Capture.SearchClosesStart | checkers_logic.py:189-219 | expanding a square that is not the target visits the landing square of each of its open jumps |
| Capture.ExpandVisitsLanding | checkers_logic.py:193-219 | an open branch always visits its landing square |
| Capture.ClosedSetHoldsChainEnd | checkers_logic.py:180-221 | a visited set closed under open jumps contains the end of every chain that starts inside it |
| Capture.SearchStaysOnBoard | checkers_logic.py:180-219 | every square a search visits is on the board |
| Capture.SearchExpandsAtMost64 | checkers_logic.py:180-183 | one search adds at most 64 squares to the memo |
| Capture.FreshSearch | checkers_logic.py:288-291 | the search as `validate_move` starts it succeeds exactly when some chain of open jumps reaches the target; on success the pending list is a non-empty chain's captures, no square in it twice; on failure it is untouched |
| Capture.StopsCons | checkers_logic.py:196-219 | the squares a chain stands on are its start followed by the squares the rest of the chain stands on from the first landing square |
| Capture.UnvisitedCons | checkers_logic.py:181-183 | an unvisited square put before a path of squares outside a visited set that holds it gives a path with no repeated and no visited square |
| Capture.ChainStep | checkers_logic.py:193-219 | the k-th jump of a chain leaves its k-th stop in one diagonal direction, over its k-th capture, onto its (k+1)-th stop |
| Capture.StopsSum | checkers_logic.py:193-219 | row plus column of every stop of a chain differs from the start's by a multiple of four |
| Capture.ChainCapturesDistinct | checkers_logic.py:181-219 | a chain that never stands on the same square twice never jumps the same square twice |
| Capture.OneJumpIsFound | checkers_logic.py:193-219 | a single open jump onto the target is always found, whatever the earlier branches did |
| Logic.CheckersLogic.CheckWrongDirection | checkers_logic.py:223-243 | true exactly for a Green man not moving to a higher row or an Orange man not moving to a lower row; false for kings and empty squares |
| Logic.CheckersLogic.CheckSameMove | checkers_logic.py:245-260 | true exactly when start and end are the same square |
| Logic.Validation | checkers_logic.py:262-293 | the message is empty exactly for a valid move; the checks run in order: the same square is rejected with "You have to move the piece", then a man's wrong direction with "You have to move forward", then a one-square diagonal step is accepted exactly when the destination is empty, otherwise "You can not move there, there is already a piece"; every other shape runs the capture search from an empty memo, which decides validity, memo and pending list, otherwise "That move is not allowed" |
| Logic.CheckersLogic.ValidateMove | checkers_logic.py:262-293 | the method's result, message, memo and pending list are exactly the verdict `Validation` gives for the board, the side to move and the old memo and list; the board and everything else stay unchanged |
| Logic.ValidationSound | checkers_logic.py:262-293 | a valid move is an empty single step that keeps the pending list, or a non-empty chain of open jumps from start to end whose captures are the pending list; a rejection leaves the pending list unchanged |
| Logic.ValidationOfJumps | checkers_logic.py:284-293 | a move that is neither a single step nor rejected earlier is valid exactly when some chain of open jumps leads from start to end, and then both coordinates change by an even amount |
| Logic.AcceptedMoveKeepsCounts | checkers_logic.py:75-117 | an accepted move of the mover's own piece onto an empty square, from an empty pending list, is clean: its captures are distinct opponent pieces, so the mover's piece count is unchanged and the opponent's drops by the number of captures, as the counters do |
| Logic.CheckersLogic.CheckEnd | checkers_logic.py:295-304 | Green's counter at zero makes Orange the winner and Orange's at zero makes Green the winner, the latter prevailing when both are zero; otherwise the winner is unchanged |
| Logic.CheckersLogic.Move | checkers_ui.py:135-149 | for a piece of the side to move: acceptance and message are `Validation`'s verdict; a rejected move changes nothing but the scratch memo; an accepted move applies `AfterMove` with the pending list the validation produced, lowers the opponent's counter by the number of captures and keeps the mover's, empties the list, sets the winner as `check_end` decides, and passes the turn unless a winner is set |

## Left out

- The console in checkers_ui.py: input prompts and their range checks, board printing and colours, screen clearing, the menu and the game loop. Only the turn step is kept, as `Move`. `Move` makes one attempt; the console repeats the attempt until a move is accepted.
- constants.py is not part of this model. The cell and player values are a datatype. `OPOSITES`, `ENUM_NORMAL` and `ENUM_PROMOTED` are taken to be the other side's man and king, a side's own man, and a side's own king.
- `get_piece` is modelled as `GetPiece`, a plain read of the board with no contract of its own.
- `TryJump` is not a method of the source. It factors out the four guarded branches of `check_longer_move`, which differ only in direction.
- Coordinates: every method that reads the board requires the squares it reads to be on it, as the console passes only 0-7. Python's negative-index wrap-around is not modelled.
- A revisited square makes the search return `None`. The model returns false, which is how every caller treats it.
- A win by leaving the opponent without a legal move is mentioned in the console's instructions but never implemented, so it is not modelled.
- Logic.CheckersLogic.PerformMove: states the counter arithmetic, not that the counters equal the pieces on the board. That holds only for a clean move (`Moves.MoveKeepsCounts`). The engine does not check the owner of the moving piece (only the console does), and never checks the destination of a jump, which may hold a piece that the move overwrites.
- Logic.CheckersLogic.Move: states the counter arithmetic, not that the counters equal the pieces on the board, for the same reason as `PerformMove`. When the turn starts with an empty pending list, the captures of an accepted move are distinct opponent pieces (`Logic.AcceptedMoveKeepsCounts`), so the counters stay equal to the board whenever the destination was empty. Every turn the console drives starts that way: `InitGame` empties the list (checkers_logic.py:36), an accepted `Move` empties it (checkers_logic.py:90), and a rejected `Move` keeps it. A single step taken with a non-empty list would carry that stale list into `perform_move`.
- Logic.CheckersLogic.Move: requires the start square to hold a piece of the side to move. The console (checkers_ui.py:114-123) asks again until it does, before it validates the move.
