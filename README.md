# Laser Chess: rule engine and search

This project models the core of a two-player Laser Chess program in Dafny and
proves properties of that model. The board has 8 rows and 10 columns and holds
integer piece codes. A code's sign is its owner (First `+`, Second `-`), its tens
digit the kind (King 50, Defender 40, Switch 30, Deflector 20, Laser 10) and its
units digit the orientation.

On a turn, a player either rotates one of their own pieces a quarter turn or
moves it one square in any of eight directions. They then fire their laser from
their corner:
- Deflectors and Switches reflect the beam.
- A Defender stops it and is destroyed unless the beam hits its shield.
- A Deflector hit on its back, or a King, is destroyed.
- Destroying a King wins the game for the King's opponent.

The computer player searches the game tree with alpha-beta pruning and scores
leaves with a heuristic. The heuristic counts material and the pieces the beams
cross, and looks at how close the beams end to the two kings.

The model is organised as follows:

- `Consts` (consts.dfy) holds:
  - the constants: board size, player signs, kind and orientation codes, the named piece codes;
  - the eight direction vectors and the move sets;
  - the five preset layouts.
- `Pieces` (pieces.dfy) is the pure part of the engine:
  - encoding and decoding piece codes;
  - rotation codes;
  - vector addition and the bounds test;
  - boards as values.
- `Rules` (rules.dfy) gives the rules as functions on game-state values:
  - the move validator;
  - the beam reflection tables and the beam walk;
  - the shot;
  - the composed turn;
  - the constructor's checks.
- `BeamBound` (beam_bound.dfy) proves that the beam never needs more than 320 steps. There are 80 cells with 4 headings each.
  - The reflection tables are reversible, so a beam state has at most one predecessor.
  - The laser's first state has no predecessor on the board, so no state repeats.
- `Engine` (engine.dfy) is the game object, a class with:
  - the board as a 2-D array, and the stored turn and winner;
  - methods that mutate them in place, as the original does.

  Each method is proved against the `Rules` function it implements. The beam is a `while` loop over the array.
- `Search` (search.dfy) models the search on an abstract game:
  - `Minimax` is the reference value;
  - `AlphaBeta` transcribes the original's tie-break;
  - `AlphaBetaFirst` is the corrected search.

  The lemmas relate the three.
- `LaserAI` (laser_ai.dfy) is the computer player:
  - piece locations, piece counts and the king lookup;
  - move enumeration by probing copies;
  - the position score;
  - the recursive search, as methods over `LaserChess` objects.

  These are proved equal to `Search.AlphaBetaFirst` and `Search.Minimax` on the game the engine plays.

Where the natural reading of the rules and the code differ, the model follows
the code:
- `make_move` stores the given player as the turn even when the move fails.
- It never looks at the winner.
- A shot after the game is won still stores the shooter as the turn. It then returns with nothing else changed.
- A preview shot stores the shooter and then flips the turn.
- The forbidden squares are tested only when a player argument is given.
- The constructor checks that each king is present, not that it is unique.
- Leaves are scored for the player to move at that node.

## Model

| member | source | states |
|---|---|---|
| Consts.PieceConstantsEncode | laser_chess_consts.py:68-80 | every named piece code equals player times (kind plus orientation) for its name |
| Consts.MoveVectors | laser_chess_consts.py:37-46 | the eight move offsets are exactly the nonzero vectors with components in -1..1 |
| Consts.MoveSets | laser_chess_consts.py:49-55 | CW is -1, CCW and ACW are 1; two rotations, disjoint from the eight steps; ten legal moves |
| Pieces.FindPlayer | laser_chess.py:81-93 | the owner is 0, FIRST or SECOND exactly when the code is zero, positive or negative |
| Pieces.FindPiece | laser_chess.py:95-99 | no contract of its own: the kind is the absolute code rounded down to a multiple of ten; specified by Pieces.MakePiece and Pieces.PieceCodeRoundTrip |
| Pieces.FindOrient | laser_chess.py:101-105 | no contract of its own: the orientation is the absolute code's units digit; specified by Pieces.MakePiece and Pieces.PieceCodeRoundTrip |
| Pieces.MakePiece | laser_chess.py:53-69 | decoding a made piece gives back its player, kind and orientation |
| Pieces.PieceCodeRoundTrip | laser_chess.py:53-105 | re-encoding the decoded owner, kind and orientation of any valid piece code gives the code back |
| Pieces.NumOrientations | laser_chess.py:117-132 | every kind has between one and four orientations |
| Pieces.OrientationCodesInRange | laser_chess_consts.py:25-29 | each orientation constant is in range for its kind |
| Pieces.NamedCodesValid | laser_chess_consts.py:68-80 | every named piece code is a valid board cell |
| Pieces.RotateCode | laser_chess.py:221-228 | a rotation keeps owner and kind and sets the orientation to (o + delta) mod the kind's count |
| Pieces.RotateTimesOrient | laser_chess.py:221-228 | k rotations in one direction shift the orientation by k (mod the count), keeping owner and kind |
| Pieces.RotationCycle | laser_chess.py:117-132 | as many rotations in one direction as the kind has orientations restore the piece |
| Pieces.RotationInverse | laser_chess.py:221-228 | a clockwise rotation undoes an anticlockwise one and vice versa |
| Pieces.TupleAdd | laser_chess.py:107-115 | no contract of its own: componentwise addition of two pairs (the length assert holds by the pair type); Pieces.DirectionSums states sums of direction vectors |
| Pieces.InBounds | laser_chess.py:134-138 | no contract of its own: the row is in 0..7 and the column in 0..9; used as the beam's loop condition and the relocation's bounds test |
| Pieces.DirectionSums | laser_chess.py:107-115 | N+E is NE, W+S is SW and N+S is the zero vector |
| Pieces.Put | laser_chess.py:382-384 | writing a cell changes that cell only and keeps a valid board |
| Pieces.EmptyBoard | laser_chess.py:71-79 | the empty board holds Second's vertical laser at (0,0), First's at (7,9) and nothing else |
| Rules.Forbidden | laser_chess.py:237-243 | no contract of its own: First may not enter column 0, (0,8) or (7,8), Second may not enter column 9, (0,1) or (7,1), and nothing is forbidden without an explicit mover; Rules.RelocationMadeExactly states its role in the validator |
| Rules.MakeMove | laser_chess.py:188-256 | ensures only that the state stays valid; specified by Rules.MakeMoveOutcome, Rules.MoveNeedsOwnPiece, Rules.RotationAlwaysMade, Rules.RelocationMadeExactly and Rules.MakeMoveFrame |
| Rules.Swap | laser_chess.py:244-252 | a swap exchanges the two cells and changes no other |
| Rules.MakeMoveOutcome | laser_chess.py:213-220 | the turn becomes the mover; the winner is kept; a failed move leaves the board; a made move took the mover's own piece |
| Rules.MoveNeedsOwnPiece | laser_chess.py:217-220 | a move from an empty cell or an opponent's cell fails and changes only the stored turn |
| Rules.RotationAlwaysMade | laser_chess.py:221-228 | rotating an own piece, Laser included, always succeeds and writes the rotated code |
| Rules.RelocationMadeExactly | laser_chess.py:229-256 | a step succeeds exactly when all of these hold, and then swaps the two cells: own non-Laser piece; destination on the board and not forbidden to an explicit mover; destination empty, or a Switch stepping onto a Deflector or Defender |
| Rules.RelocationMovesPiece | laser_chess.py:244-252 | after a made step the piece stands on the destination and the source holds what was there |
| Rules.LasersNeverRelocate | laser_chess.py:233-234 | a Laser never steps |
| Rules.MakeMoveFrame | laser_chess.py:188-256 | no cell other than the source and the destination changes |
| Rules.MakeMoveKeepsLasers | laser_chess.py:188-256 | both lasers stay in their corners after any move |
| Rules.MakeMoveKeepsKings | laser_chess.py:188-256 | a game with both kings keeps them after any move |
| Rules.Interact | laser_chess.py:294-380 | no contract of its own: the reflection and capture table per kind and orientation; specified by Rules.InteractOutcomes, Rules.SwitchIsMirror, Rules.DeflectorIsOneSidedMirror, Rules.DefenderShield, Rules.InteractReversible and Rules.InteractInjective |
| Rules.InteractOutcomes | laser_chess.py:294-380 | Kings are captured, Defenders always stop the beam, Switches and Lasers and empty cells pass it, and only Deflectors, Defenders and Kings are captured |
| Rules.SwitchIsMirror | laser_chess.py:331-351 | a Switch reflects every heading along its diagonal |
| Rules.DeflectorIsOneSidedMirror | laser_chess.py:296-330 | a Deflector reflects a beam arriving at one of its two mirror faces and is captured from the other two sides |
| Rules.DefenderShield | laser_chess.py:352-367 | a Defender stops the beam and is captured unless the beam arrives at its shield face |
| Rules.InteractReversible | laser_chess.py:294-351 | reversing an outgoing beam through a cell gives back the reversed incoming one |
| Rules.InteractInjective | laser_chess.py:294-351 | two headings that pass a cell to the same outgoing heading are the same |
| Rules.LaserStart | laser_chess.py:279-290 | Second fires from (0,0) east or south, First from (7,9) west or north, east (west) exactly when the laser in that corner is horizontal, south (north) otherwise |
| Rules.Walk | laser_chess.py:292-380 | no contract of its own: the beam's walk with a step budget; specified by Rules.WalkShape, and BeamBound.BeamNeverExhausted shows the budget is never reached from a laser |
| Rules.WalkShape | laser_chess.py:292-380 | the beam path starts at the laser, stays on the board, moves between adjacent cells, and ends on the piece it captures or the Defender that blocks it |
| Rules.Fire | laser_chess.py:258-387 | ensures only that the state stays valid; specified by Rules.FireOutcome, Rules.PreviewSamePath, Rules.PreviewChangesOnlyTurn and Rules.KingShotWins |
| Rules.FireOutcome | laser_chess.py:258-387 | a shot after a win only stores the turn; otherwise the turn flips; the path is on the board; with capture off nothing else changes; with capture on the piece at the end is cleared and a King hit makes its opponent the winner |
| Rules.PreviewSamePath | laser_chess.py:258-387 | a preview shot follows the same path as a real one |
| Rules.PreviewChangesOnlyTurn | laser_chess.py:382-386 | a preview shot changes only the turn, to the opponent of the shooter |
| Rules.KingShotWins | laser_chess.py:368-375 | a beam ending on a King destroys it and its opponent wins |
| Rules.MoveThenLaser | laser_chess.py:413-437 | ensures only that the state stays valid; specified by Rules.MoveThenLaserOutcome, Rules.TurnWinnerUpdateRedundant and Rules.MoveAfterGameOver |
| Rules.MoveThenLaserOutcome | laser_chess.py:413-437 | the turn is valid exactly when the move is made; a failed move only stores the turn; a made move is followed by the mover's shot; the winner changes only when a King is eliminated |
| Rules.TurnWinnerUpdateRedundant | laser_chess.py:429-436 | after a made move the result is exactly the committed shot: the later winner update is redundant |
| Rules.MoveAfterGameOver | laser_chess.py:425-431 | once the game is won the move still changes the board, but the shot that follows changes nothing and eliminates nothing |
| Rules.SetupHasLasers | laser_chess.py:170-172 | a layout accepted by the constructor has both lasers in their corners |
| Rules.SetupAllowsTwoKings | laser_chess.py:173-174 | the constructor accepts a layout with two First kings |
| Rules.PresetsAreGood | laser_chess_consts.py:112-160 | each preset layout is 8 by 10, valid, with both lasers home and exactly one king of each player at its named cell |
| BeamBound.Rays | laser_chess.py:292-380 | the successive beam states are on the board and each is the successor of the one before |
| BeamBound.PredecessorUnique | laser_chess.py:294-351 | two beam states passing to the same next state are equal |
| BeamBound.RaysDistinct | laser_chess.py:292-380 | a beam entering the board from outside never repeats a state |
| BeamBound.RaysBounded | laser_chess.py:292-380 | a beam entering from outside takes at most 320 states |
| BeamBound.BeamNeverExhausted | laser_chess.py:292-380 | the beam from either laser ends within 320 steps, so the unbounded loop always terminates |
| Engine.NewBoard | laser_chess.py:176 | the board array is a fresh copy of the layout |
| Engine.LaserChess.constructor | laser_chess.py:151-178 | an accepted layout gives the state (layout, player to move, no winner) with lasers home and both kings |
| Engine.LaserChess.Copy | laser_chess_ai.py:56 | a copy has a fresh board and the same state |
| Engine.LaserChess.MakeMove | laser_chess.py:188-256 | the new state and result are those of Rules.MakeMove on the old state |
| Engine.LaserChess.LaserOrigin | laser_chess.py:279-290 | the start cell and heading are those of Rules.LaserStart |
| Engine.LaserChess.Follow | laser_chess.py:292-380 | the loop's path and end are those of the beam walk from the start state |
| Engine.LaserChess.Trace | laser_chess.py:279-380 | the path and end of the beam from the shooter's laser |
| Engine.LaserChess.ShootLaserPathPiece | laser_chess.py:258-387 | the new state, destroyed piece and path are those of Rules.Fire |
| Engine.LaserChess.ShootLaser | laser_chess.py:389-402 | the committed shot: new state and destroyed piece of Rules.Fire |
| Engine.LaserChess.ShootLaserPath | laser_chess.py:404-411 | the new state and path of Rules.Fire |
| Engine.LaserChess.MoveThenLaser | laser_chess.py:413-437 | the new state, validity and eliminated piece are those of Rules.MoveThenLaser |
| Search.Max | laser_chess_ai.py:45 | the larger of two scores, which is one of them |
| Search.Min | laser_chess_ai.py:49 | the smaller of two scores, which is one of them |
| Search.ScoreOrder | laser_chess_ai.py:42-49 | scores with infinities are totally ordered |
| Search.AlphaBeta | laser_chess_ai.py:33-67 | no contract of its own: the search as written, with the `>=` / `<=` tie-break; specified by Search.AlphaBetaBounds, Search.AlphaBetaIsMinimax and Search.AlphaBetaMove, and Search.TieBreakPicksWorseMove exhibits the tie-break's flaw |
| Search.AlphaBetaBounds | laser_chess_ai.py:33-67 | the transcribed search's value is a fail-soft bound of the minimax value within the window |
| Search.ScanBounds | laser_chess_ai.py:54-66 | the scan over the children keeps the fail-soft bound and never worsens the running best |
| Search.AlphaBetaIsMinimax | laser_chess_ai.py:33-67 | with the full window the transcribed search returns the minimax value |
| Search.AlphaBetaMove | laser_chess_ai.py:39-67 | a move is returned exactly when the node is searched and has moves, and it is one of them |
| Search.ScanMove | laser_chess_ai.py:54-66 | the scan's move is the running best or one of the scanned moves |
| Search.AlphaBetaFirst | laser_chess_ai.py:33-67 | no contract of its own: the same search with the first-wins tie-break; specified by Search.AlphaBetaFirstMove, Search.SameValue and Search.ChosenMoveIsOptimal |
| Search.ScanFirstMove | laser_chess_ai.py:54-66 | the corrected scan's move is the running best or one of the scanned moves |
| Search.AlphaBetaFirstMove | laser_chess_ai.py:39-67 | the corrected search returns a move exactly when the node is searched and has moves, and it is one of them |
| Search.SameValue | laser_chess_ai.py:33-67 | the corrected search returns the same value as the transcribed one |
| Search.RootScan | laser_chess_ai.py:54-66 | at the root the corrected scan's value is the best minimax value of the children, and its move reaches that value |
| Search.RootScanEarliest | laser_chess_ai.py:54-66 | the root scan keeps the move it started with, or a move of the list strictly better than that one and than every move listed before it |
| Search.ChosenMoveIsOptimal | laser_chess_ai.py:33-67 | the corrected search returns the minimax value and a move whose child has exactly that value, and every move listed before it leads to a child strictly worse for the player: the earliest optimal move |
| Search.TieBreakPicksWorseMove | laser_chess_ai.py:44-62 | on a concrete tree the transcribed search reports 5 but returns a move whose value is 0 |
| Search.FirstWinsKeepsBetterMove | laser_chess_ai.py:44-62 | on the same tree the corrected search returns the move of value 5 |
| LaserAI.WhereSpec | laser_chess_ai.py:186-193 | the cells found are exactly those satisfying the test, in strictly increasing row-major order |
| LaserAI.PlayerLocations | laser_chess_ai.py:186-193 | no contract of its own: the player's cells in row-major order, None for a value that is not a player; specified by LaserAI.PlayerLocationsExactly |
| LaserAI.PlayerLocationsExactly | laser_chess_ai.py:186-193 | a player's locations are exactly that player's cells, Kings and Lasers included, each once, in row-major order; no result for a non-player |
| LaserAI.CountPlayerPieces | laser_chess_ai.py:152-159 | no contract of its own: the number of the player's cells, None for a value that is not a player; specified by LaserAI.CountIsLocations |
| LaserAI.CountIsLocations | laser_chess_ai.py:152-159 | the piece count is the number of the player's locations; no result for a non-player |
| LaserAI.FindKing | laser_chess_ai.py:143-150 | no contract of its own: the first cell holding the player's king in row-major order, None when there is none; specified by LaserAI.FindKingFirst |
| LaserAI.FindKingFirst | laser_chess_ai.py:143-150 | a king is found exactly when the board holds one, and it is the first in row-major order |
| LaserAI.LegalOrderIsMoveOrder | laser_chess_consts.py:46-55 | the fixed move order lists each legal move exactly once |
| LaserAI.ProbeCellExactly | laser_chess_ai.py:258-263 | the probes at one cell keep exactly the moves in the order that succeed there |
| LaserAI.ProbeAllExactly | laser_chess_ai.py:253-265 | the probes keep exactly the (cell, move) pairs that succeed |
| LaserAI.LegalMoves | laser_chess_ai.py:253-265 | no contract of its own: the (cell, move) pairs that make_move accepts for the player, cells in row-major order and moves in the given order; specified by LaserAI.LegalMovesExactly, LaserAI.MadeIsLegal and LaserAI.LegalMovesOrdered |
| LaserAI.LegalMovesExactly | laser_chess_ai.py:253-265 | the legal moves are exactly the on-board (cell, move) pairs whose move succeeds for the player |
| LaserAI.Pos | laser_chess_ai.py:259 | the place of a move in the iteration order is the first index holding it, or the length when absent |
| LaserAI.PosAt | laser_chess_ai.py:259 | in an order without repeats, each entry's place is its index |
| LaserAI.ProbeCellOrdered | laser_chess_ai.py:259-263 | probing a prefix of the order at one cell lists pairs at that cell, by the move's place in the order |
| LaserAI.ProbeAllOrdered | laser_chess_ai.py:256-264 | probing cells in row-major order lists the pairs by cell, then by the move's place in the order |
| LaserAI.LegalMovesOrdered | laser_chess_ai.py:253-265 | the legal moves are listed by cell in row-major order and, within a cell, by the move's place in the order, so each pair appears once |
| LaserAI.MadeIsLegal | laser_chess_ai.py:253-265 | every move that succeeds is listed |
| LaserAI.AlwaysAMove | laser_chess_ai.py:52-67 | with both lasers home every player has a legal move, since rotating the laser always succeeds |
| LaserAI.Probe | laser_chess_ai.py:259-263 | a probe on a copy answers whether the move succeeds, leaving the game unchanged |
| LaserAI.ProbeMoves | laser_chess_ai.py:258-263 | the loop over the moves at a cell finds the probed list |
| LaserAI.ProbeCells | laser_chess_ai.py:256-264 | the loop over the locations finds the probed list |
| LaserAI.AllLegalMoves | laser_chess_ai.py:253-265 | returns LegalMoves, in row-major, then move, order (LaserAI.LegalMovesOrdered), with the game left as it was |
| LaserAI.Engaged | laser_chess_ai.py:107-113 | no contract of its own: First's minus Second's pieces on the beam squares; specified by LaserAI.EngagedBound and LaserAI.EngagedStep |
| LaserAI.EngagedBound | laser_chess_ai.py:104-111 | the engagement balance lies within the number of beam squares |
| LaserAI.EngagedStep | laser_chess_ai.py:107-111 | taking one square out changes the balance by its owner's sign |
| LaserAI.CountEngaged | laser_chess_ai.py:104-111 | the loop over the beam squares computes the balance of First's against Second's pieces |
| LaserAI.DistRecip | laser_chess_ai.py:161-166 | the reciprocal distance is in (0,1] and is 1 exactly for the same cell |
| LaserAI.EvalLaserInKings | laser_chess_ai.py:168-184 | the value is in (-1,1), zero when the kings coincide, positive at Second's king and negative at First's |
| LaserAI.KingSafety | laser_chess_ai.py:121-138 | no contract of its own: the king-safety term for the scoring player; specified by LaserAI.KingSafetyRange |
| LaserAI.KingSafetyRange | laser_chess_ai.py:121-138 | the king term is within a king's worth and is a full king's loss exactly when the player's own king ends a beam |
| LaserAI.PositionScore | laser_chess_ai.py:92-140 | no contract of its own: the finite score from piece difference, engaged pieces and king safety; LaserAI.ScorePaths proves the loop computes it |
| LaserAI.Evaluate | laser_chess_ai.py:69-140 | no contract of its own: infinite for a won game, else the position score along both preview beams; specified by LaserAI.EvaluateWonExactly |
| LaserAI.EvaluateWonExactly | laser_chess_ai.py:87-88 | the score is +inf or -inf exactly when First or Second has won, and finite otherwise |
| LaserAI.PreviewBoth | laser_chess_ai.py:101-102 | both preview paths are those of the shots, and the stored turn ends at First |
| LaserAI.ScorePaths | laser_chess_ai.py:93-138 | the score computed along two beam paths is the position score |
| LaserAI.EvaluateBoard | laser_chess_ai.py:69-140 | the heuristic equals Evaluate of the old state; board and winner are untouched |
| LaserAI.Turn | laser_chess.py:413-437 | the game's play is the state part of `Rules.MoveThenLaser` with an explicit mover; it keeps a valid state, a won game stays won by the same player and the lasers stay home |
| LaserAI.LaserGame | laser_chess_ai.py:18-67 | the searched game's moves are the legal moves, its plays are whole turns, its leaves are Evaluate and it is over once won |
| LaserAI.PlayOnCopy | laser_chess_ai.py:55-56 | the child is a fresh copy on which the turn was played, the caller's game unchanged |
| LaserAI.SearchChild | laser_chess_ai.py:57-58 | the child's value is the corrected search one ply deeper for the opponent |
| LaserAI.ChildValue | laser_chess_ai.py:55-58 | copying, playing and searching a child gives its search value |
| LaserAI.ScanOne | laser_chess_ai.py:55-66 | one iteration advances the scan over the children, stopping exactly at a cut |
| LaserAI.ScanMoves | laser_chess_ai.py:54-66 | the loop over the moves computes the corrected scan |
| LaserAI.SearchedNode | laser_chess_ai.py:39-67 | a searched node scans its legal moves and finds a move |
| LaserAI.MinimaxFiltered | laser_chess_ai.py:33-67 | the recursive search returns the corrected alpha-beta value and move; a move exactly when the node is searched |
| LaserAI.BestMove | laser_chess_ai.py:18-30 | the value is the minimax value; the move is a legal move whose resulting position has that value, and every legal move listed before it leads to a position strictly worse for the player |
| LaserAI.BestIsEarliest | laser_chess_ai.py:18-30 | the root search's move is the earliest legal move in the enumeration order whose position reaches the root's value |

## Left out

- The graphical front end (laser_pygame.py) and the console game (play_laser_type.py) are user interface and input/output. They are not part of this model.
- `__str__`, `__repr__`, `print_winner` and the Unicode display table are display only.
- `moves_that_change_laser` (laser_chess_ai.py:195-251) and `legal_minus_laser` (laser_chess_ai.py:267-272) are left out. The search never uses them.
- The `__main__` demo and its timing are left out.
- The order of `LEGAL_MOVES` comes from Python set iteration, which is not specified. The model takes the move order as a parameter: any order of the ten moves with each move once.
- The heuristic uses exact real arithmetic, not IEEE doubles.
  - `inf * winner` is modelled as the scores `PosInf` and `NegInf`.
  - Rounding in `dist_recip`, `FUTURE_SIGHT` and the king-safety term is not modelled.
- numpy arrays become a Dafny `array2<int>` in the engine and sequences of rows in the rules. `deepcopy` becomes the `Copy` constructor, which allocates a fresh array.
- The original's `assert` failures are not modelled. The model instead states their conditions as preconditions:
  - a location off the board;
  - a move outside `LEGAL_MOVES`;
  - a player argument other than FIRST, SECOND or none;
  - a cell code that is not a valid piece, which the shot asserts.
- The constructor's checks are the precondition `ValidSetup`. The board's cells are also required to be valid codes, which the original takes for granted without a check.
- `find_king` raises an `IndexError` when the king is missing. The model returns `None` there, and the evaluation is only called on games that are won or still have both kings.
- `count_player_pieces` and `player_locations` raise `ValueError` for a value that is not a player. The model returns `None` instead.
- LaserAI.MinimaxFiltered: follows the corrected first-wins tie-break, not the `>=` / `<=` comparison at laser_chess_ai.py:44, 48 and 59-62. The transcription of the original is `Search.AlphaBeta`; see Findings.
- LaserAI.ScanOne: keeps the earlier of two equally valued children, where the loop body at laser_chess_ai.py:59-62 keeps the later one (`>=` / `<=`); it follows the corrected first-wins tie-break, and the reported value is the same.
- LaserAI.ScanMoves: computes the corrected first-wins scan, not the `>=` / `<=` loop at laser_chess_ai.py:54-66, so on ties it keeps the first move; the reported value is the same (`Search.SameValue`).
- LaserAI.BestMove: returns the first of equally valued moves in the enumeration order (`LaserAI.BestIsEarliest`), where the original returns the last one it takes; the reported value is the same.
- LaserAI.MinimaxFiltered: requires both lasers to be in their corners. That precondition guarantees a legal move (rotating the laser), so the unassigned `best_coord` error at laser_chess_ai.py:67 cannot arise.
- Engine.LaserChess.Follow: carries a ghost step bound for the proof only. The loop itself has no bound, and `BeamBound.BeamNeverExhausted` shows that 320 steps always suffice.

## Findings

| source | as written | input that shows it | evidently intended | confidence | as-written member | corrected member |
|---|---|---|---|---|---|---|
| laser_chess_ai.py:44-62 | a child with a value equal to the best so far replaces it (`>=` for First, `<=` for Second), even when fail-soft pruning made that value only a bound | a two-ply tree (`Search.TieGame`): root First at depth 2, move 1 leads to leaves 5 and 5, move 2 to leaves 5 and 0; the search reports 5 but returns move 2, whose true value is 0 | keep the first of equally valued moves, so the returned move achieves the reported value | not executed | Search.TieBreakPicksWorseMove | Search.ChosenMoveIsOptimal |
