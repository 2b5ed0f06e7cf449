# Verified rules engines of a collection of small pygame games

This project is a Dafny model of the rules engines inside a repository of small pygame games. The
drawing, event loops and sound of those games are not modelled. What is modelled is the logic each
game runs between frames: move generation, move application, win and score detection, and, for the
five games with a computer opponent that searches a game tree, that search.

The model has three layers.

* **Adversarial search** (`search.dfy`, module `Search`). One generic depth-limited search over an
  abstract game: its moves, how a move is applied, a terminal test, a static evaluation, what a side
  with no move scores (pass, static evaluation, a losing infinity, or a draw), and the tie-break among
  equally good moves (first strictly better, last equal, or a uniform pick). `Minimax` is the reference
  definition. `AlphaBeta` is the fail-soft alpha-beta search the games run. It is proved to return
  exactly the minimax value inside its window, and on the right side of the window outside it. With
  the full (-inf, +inf) window that every game's root call uses, it is exactly minimax, and the move it
  keeps is the first strictly best one. `PlainMinimax` (no pruning, last equal move kept) and
  `RootChoice` (a root loop that gives every child a fresh window) are the two other loop shapes in
  the games. Float infinities are the extended integers `NegInf | Fin(n) | PosInf`.
* **Games with a search AI**:
  * tic-tac-toe (`tictactoe.dfy`);
  * connect four (`connectfour.dfy`);
  * othello (`othello.dfy`);
  * chess (`chess_rules.dfy` for the move rules, `chess.dfy` for the board object and the AI);
  * checkers (`checkers.dfy`).

  Each one instantiates the generic `Search.Game` with its own rules engine. Each proves that its AI's
  loop computes that search.
* **Per-game state models and single-player logic**:
  * 1-D chess (`onedchess.dfy`);
  * go (`go_grid.dfy` for groups and liberties, `go.dfy` for play and scoring);
  * backgammon (`backgammon.dfy`);
  * stratego (`stratego.dfy`);
  * the queens puzzle (`queens.dfy`);
  * sudoku (`sudoku.dfy`);
  * minesweeper (`minesweeper.dfy`);
  * tetris (`tetris.dfy`);
  * snake (`snake.dfy`);
  * blackjack (`blackjack.dfy`);
  * risk (`risk.dfy`).

  `options.dfy` holds the shared `Option` type and `seqs.dfy` a sequence lemma two games share.

The model follows the source's form. An object whose methods update its fields is a Dafny `class`
with those fields, for example `Othello.Board`, `Go.GoBoard`, `Tetris.Game` and `Risk.RiskGame`.
Classes whose fields must keep a shape or a relation carry a `Valid()` invariant that every method
keeps: `TicTacToe.Game`, `Go.GoBoard`, `Queens.Game`, `Sudoku.Generator`, `Sudoku.Play`,
`Minesweeper.Game`, `Tetris.Game`, `Snake.Game`, `Blackjack.Table` and `Risk.RiskGame`. The other
classes have none (the boards of connect four, othello, chess, checkers, backgammon and stratego, the
1-D chess game, `Tetris.Piece` and the AI classes): their methods state the new state outright. Each method states its
new state through a specification function on values. Loops are `while` or `for` loops with invariants, proved
against those specification functions. Pure reads of a board are functions, with lemmas tying them to
independent declarative definitions.

Randomness, clock reads and player input are parameters. These include:

* shuffled decks, dice rolls and mine or food draws, passed as input sequences;
* `random.choice` fallbacks, passed as a `pick` index;
* pygame ticks, passed as a `now` argument.

Two source constants that are fractions are doubled so they stay integers: checkers' 0.5 king weight
and go's 6.5 komi.

## Model

| member | source | states |
|---|---|---|
| Search.AlphaBeta | connectfour/connectfour.py:188-227 | the returned value is fail-soft with respect to Minimax: exact inside (alpha, beta), and on the same side as the true value outside it; a move index is returned iff the node is searched (depth > 0, not terminal, some move), it is in range, and inside the window it is the first move with the strictly best child value |
| Search.MaxNode | connectfour/connectfour.py:200-213 | the maximizing loop (keep a strictly greater child, raise alpha, cut when alpha >= beta) returns a fail-soft approximation of the best child value and, inside the window, the first best child |
| Search.MinNode | connectfour/connectfour.py:214-227 | the minimizing loop (keep a strictly smaller child, lower beta, cut when alpha >= beta) returns a fail-soft approximation of the least child value and, inside the window, the first least child |
| Search.FullWindowSearch | connectfour/connectfour.py:188-227 | called with the (-inf, +inf) window, alpha-beta returns exactly the minimax value, and for a finite value the first strictly best move |
| Search.FailSoftExact | connectfour/connectfour.py:211-212 | a fail-soft value is the true minimax value when that value lies inside the window or the window is (-inf, +inf), so the cut-offs do not change the answer |
| Search.MaxLoopStep | connectfour/connectfour.py:207-212 | one iteration of the maximizing loop keeps the loop invariant: the running value is fail-soft for the best of the children seen so far, and inside the window the kept move is the first best of them |
| Search.MinLoopStep | connectfour/connectfour.py:221-226 | one iteration of the minimizing loop keeps the same invariant for the least child |
| Search.PlainMinimax | checkers/checkers.py:221-242 | minimax without pruning over copies returns exactly Minimax, a move iff the node is searched, and on ties the last move whose value equals the best |
| Search.RootChoice | othello/othello.py:196-213 | the root loop that gives each child a fresh window returns None iff there are no moves; otherwise, when the children's values are exact, it returns the first child strictly better than the initial best value, or the random fallback when none is |
| Search.Choose | 1dchess/1dchess.py:147-152 | the index kept under each tie-break is a position of the best value: the first one under FirstStrict, the last one under LastEqual |
| Search.UniformReachesEveryBest | 1dchess/1dchess.py:147-152 | a uniform pick among the top-scoring positions can return a position iff that position holds the best value |
| Search.FirstBestUnique | connectfour/connectfour.py:207-209 | the first best position is unique, so any loop proved to keep a first best move agrees with Choose |
| Search.LastBestUnique | checkers/checkers.py:230-232 | the last best position is unique |
| Search.BestHoldsExtreme | 1dchess/1dchess.py:147-152 | a best position holds the fold of the values, i.e. the top score |
| Search.ExtremeOfBounds | othello/othello.py:224-231 | the running max (min) fold is no worse than its start and every folded value, and is one of them |
| Search.ExtremeOfPrefix | connectfour/connectfour.py:206-212 | folding more children never makes the running value worse, so a cut-off loop's partial value bounds the full one |
| Search.MinimaxFin | chess/chess.py:295-316 | when no-move positions are scored statically and the sentinels are not reachable from the leaves, every minimax value is finite |
| Search.FiniteBeatsWorst | othello/othello.py:203-212 | a finite child value always beats the -inf initial best value, so the random first guess is always replaced |
| Search.Indices | 1dchess/1dchess.py:147-152 | the positions holding a value, in increasing order, exactly |
| TicTacToe.CheckWin | tictactoe/tictactoe.py:96-113 | a win is reported iff some line is complete, and then it is the first complete line in the order rows, columns, diagonals, with its (non-empty) mark; DRAW iff no line is complete and no cell is empty; no result iff no line is complete and some cell is empty |
| TicTacToe.TerminalScore | tictactoe/tictactoe.py:129-132 | an O win at depth <= 9 scores in (0, 10], an X win in [-10, 0), a draw 0 |
| TicTacToe.SoonerWinIsBetter | tictactoe/tictactoe.py:129-131 | a faster O win scores strictly higher and a faster X win strictly lower |
| TicTacToe.Minimax | tictactoe/tictactoe.py:128-149 | the mutate-and-undo search returns the board exactly as it was given, and its score is the generic Minimax value of the position (O maximizing, empty cells in index order) |
| TicTacToe.ValueBounds | tictactoe/tictactoe.py:128-149 | with depth + empty cells <= 9 every search value is finite and within [-10, 10], so the -1000/+1000 initial values are always replaced |
| TicTacToe.ValueUnfold | tictactoe/tictactoe.py:129-149 | a position with a result scores its terminal score; one with no result has an empty cell and scores the fold over its children |
| TicTacToe.NoEmptyCells | tictactoe/tictactoe.py:111-113 | a board has no empty cell iff None does not occur in it |
| TicTacToe.EmptiesBelowComplete | tictactoe/tictactoe.py:156-162 | the list of empty indices below n is non-empty iff some index below n is empty |
| TicTacToe.AiResult | tictactoe/tictactoe.py:156-168 | after the root loop the kept index is the empty cell with the first strictly greatest minimax value |
| TicTacToe.Game.constructor | tictactoe/tictactoe.py:82-88 | an empty board, X to move, no winner, both scores 0 and no AI delay |
| TicTacToe.Game.MakeMove | tictactoe/tictactoe.py:115-125 | nothing changes when the cell is occupied or a winner is set; otherwise the mark is placed, and on a result the winner is stored and the winner's score (not on DRAW) is incremented, else the turn swaps and the AI timer is set to 20 when O is next |
| TicTacToe.Game.AiMove | tictactoe/tictactoe.py:151-168 | the board is restored; the move is 4 when the centre is empty, -1 when the board is full, and otherwise the lowest empty index with the strictly greatest minimax value |
| ConnectFour.Drop | connectfour/connectfour.py:92-93 | dropping writes the piece at (row, col) and leaves every other cell unchanged |
| ConnectFour.Board.DropPiece | connectfour/connectfour.py:92-93 | the board's grid becomes Drop of the old grid; the other fields are unchanged |
| ConnectFour.NextOpenRow | connectfour/connectfour.py:98-102 | the result is the lowest empty row of the column, or None exactly when every row of the column is filled |
| ConnectFour.Board.GetNextOpenRow | connectfour/connectfour.py:98-102 | the scanning loop returns NextOpenRow |
| ConnectFour.ValidHasOpenRow | connectfour/connectfour.py:95-102 | a column whose top cell is empty has an open row, so a drop into a valid location always has a row |
| ConnectFour.WinningMoveIsFourInLine | connectfour/connectfour.py:104-125 | winning_move's four scans hold iff four cells equal to the piece lie in a horizontal, vertical or diagonal line inside the 6x7 grid |
| ConnectFour.WinSurvivesDrop | connectfour/connectfour.py:92-125 | dropping any piece on an empty cell never destroys an existing four in a line |
| ConnectFour.CountsDisjoint | connectfour/connectfour.py:129-137 | the counts of two different values in a window add up to at most its length |
| ConnectFour.EvaluateWindowValues | connectfour/connectfour.py:129-139 | a window scores one of 100, 5, 2, 0 and -4; 100 exactly when it holds four own pieces, -4 exactly when the opponent has three plus one empty |
| ConnectFour.Window | connectfour/connectfour.py:150-174 | every window the scans read is four cells long and lies inside the grid |
| ConnectFour.StartsInGrid | connectfour/connectfour.py:150-174 | the horizontal, vertical and both diagonal scan ranges only start windows that fit in the 6x7 grid |
| ConnectFour.WindowSumBounds | connectfour/connectfour.py:150-174 | a scan over n windows adds between -4n and 100n |
| ConnectFour.ScorePositionBounds | connectfour/connectfour.py:141-176 | score_position lies in [-276, 6918], strictly between the player-win and AI-win terminal values, so a win always outranks any heuristic score |
| ConnectFour.ValidLocations | connectfour/connectfour.py:181-186 | the valid columns are exactly the columns whose top cell is empty, in increasing order |
| ConnectFour.NonTerminalHasMove | connectfour/connectfour.py:178-192 | a non-terminal board has a valid column, so random.choice is never given an empty list |
| ConnectFour.ValueFinite | connectfour/connectfour.py:192-198 | every search value is finite, and a terminal board scores the AI-win value, the player-win value or 0 |
| ConnectFour.Minimax | connectfour/connectfour.py:188-227 | the alpha-beta search over copies is fail-soft for the generic Minimax of the connect-four game; it returns a column iff depth > 0 and the board is not terminal; that column is valid, and inside the window it is the leftmost column with the strictly best value |
| ConnectFour.AiColumn | connectfour/connectfour.py:295 | the AI's root call (depth 5, full window) returns exactly the minimax value, and a valid column (the leftmost strictly best) iff the board is not terminal |
| ConnectFour.Board.constructor | connectfour/connectfour.py:86-90 | an empty 6x7 grid, no winner, the game running, and the randomly chosen first side (a parameter) to move |
| Othello.Board.constructor | othello/othello.py:82-92 | the standard four-disc opening, Black to move, no winner, no passes, empty history |
| Othello.Board.SaveState | othello/othello.py:94-102 | a snapshot of grid, turn, winner and passes is pushed and nothing else changes |
| Othello.Board.Undo | othello/othello.py:104-122 | with an empty history it returns false and changes nothing; otherwise it pops two snapshots (one if only one exists) and restores grid, turn, winner and passes from the last one popped |
| Othello.Board.ClosesAlong | othello/othello.py:136-146 | the walk in one direction succeeds iff a run of one or more opponent discs is ended by a player disc inside the board |
| Othello.Board.IsValidMoveAt | othello/othello.py:131-147 | a move is valid iff the cell is empty and some of the 8 directions is closed that way |
| Othello.Board.GetValidMoves | othello/othello.py:124-129 | the row-major scan returns ValidMoves |
| Othello.Board.ValidRow | othello/othello.py:126-128 | one row of the scan appends exactly that row's valid cells |
| Othello.ValidMoves | othello/othello.py:124-129 | the valid moves are exactly the in-board cells where the move is valid, in row-major order |
| Othello.Board.FlipLine | othello/othello.py:159-171 | one direction's walk flips exactly the opponent run it collects when a player disc closes it, and nothing otherwise |
| Othello.Board.FlipCollected | othello/othello.py:166-167 | painting the collected cells sets each of them to the player and nothing else |
| Othello.Board.PlaceAndFlip | othello/othello.py:154-171 | placing the disc and walking the 8 directions yields Placed: the placed cell plus every closed opponent run |
| Othello.WalkRay | othello/othello.py:159-169 | one direction's walk collects the opponent discs met in a row from the placed cell, each on the board at its step along the ray, as many as the run length, and reports a closing own disc after a non-empty run exactly when the run is Closes's closed run |
| Othello.Board.MakeMove | othello/othello.py:149-173 | an invalid move returns false and changes nothing, history included; a valid one pushes a snapshot of the old state first, places the disc and flips exactly the closed runs, then gives the turn to the opponent and resets passes to 0 |
| Othello.PlacedAt | othello/othello.py:154-171 | after a move a cell holds the player iff it is the placed cell or lies on a closed opponent run in some direction; every other cell is unchanged |
| Othello.PlacedFlipsOnlyOpponents | othello/othello.py:164-167 | a move changes no cell except opponent discs, which become player discs |
| Othello.PlacedFlipsClosedRuns | othello/othello.py:161-170 | a disc on the opponent run next to the placed cell flips iff that run is closed by a player disc; unclosed runs are left alone |
| Othello.ValidMoveFlips | othello/othello.py:131-171 | a valid move flips at least one opponent disc |
| Othello.Board.CheckState | othello/othello.py:175-180 | with a move available nothing changes; otherwise the turn passes, passes is incremented, and the game ends (winner by disc count) when passes >= 2 or the new side has no move either |
| Othello.Board.EndGame | othello/othello.py:182-184 | the winner is set from the disc counts and nothing else changes |
| Othello.Result | othello/othello.py:182-184 | the outcome is DRAW iff the counts are equal and BLACK WINS iff black has more discs |
| Othello.CountPieces | othello/othello.py:186-190 | the black and white counts add up to at most 64 |
| Othello.EvaluateAntisymmetric | othello/othello.py:245-262 | swapping the root player negates the positional score |
| Othello.MoveThenUndo | othello/othello.py:104-173 | a move followed by an undo on a board with no history restores grid, turn, winner and passes and leaves the history empty; the move succeeds iff it was valid |
| Othello.NoMoveIsPass | othello/othello.py:217-222 | a side with no move passes: the value is the search one ply shallower with the other side to move, so the recursion still terminates |
| Othello.ValueFinite | othello/othello.py:216-243 | every search value is finite |
| Othello.Minimax | othello/othello.py:216-243 | the alpha-beta search over copies (pass on no move) is fail-soft for the generic Minimax of the othello game |
| Othello.RootBeatsWorst | othello/othello.py:203-212 | some root child always beats the -inf initial best value, so the random first guess is always replaced |
| Othello.AI.constructor | othello/othello.py:193-194 | the AI plays the given colour |
| Othello.AI.GetBestMove | othello/othello.py:196-213 | None iff the side has no valid move; otherwise the first valid move in row-major order with the strictly greatest search value |
| ChessRules.GetPiece | chess/chess.py:134-136 | None exactly off the board, otherwise the square's contents |
| ChessRules.StepTargetsFacts | chess/chess.py:145-158 | every knight or king target is one of the piece's offsets from the square, on the board, and empty or enemy-occupied |
| ChessRules.RayFacts | chess/chess.py:176-182 | every sliding target lies on the ray, on the board, empty or enemy-occupied, and every square before it on the ray is empty |
| ChessRules.RayClosed | chess/chess.py:180-182 | once the ray is blocked (edge, own piece, or a capture) no further square is added |
| ChessRules.TargetsFacts | chess/chess.py:141-197 | every pseudo-legal target is on the board, and for non-pawns is empty or enemy-occupied |
| ChessRules.TargetsOfKind | chess/chess.py:160-182 | pawns, knights and sliders generate their own target lists (pawn pushes and captures, the 8 knight offsets, the bishop, rook or queen rays) |
| ChessRules.PawnTargetsOnBoard | chess/chess.py:160-171 | pawn targets are on the board, and a side target lies one row ahead and one column aside |
| ChessRules.KingTargetsAdjacent | chess/chess.py:184-188 | a king's step targets are at most one column away |
| ChessRules.Clear | chess/chess.py:239-247 | castling rights only ever switch off: a king move clears both of its side's rights and keeps the other side's; a move by anything but a king or rook keeps them all |
| ChessRules.ClearIdempotent | chess/chess.py:239-247 | clearing the rights for the same move twice is the same as once |
| ChessRules.NextEp | chess/chess.py:229-231 | the en-passant target is set exactly after a two-square pawn push |
| ChessRules.MoveInternalPlaces | chess/chess.py:225-233 | after an ordinary move the source is empty and the target holds the piece, or a queen for a pawn reaching the last rank |
| ChessRules.MoveInternalEnPassant | chess/chess.py:228 | a pawn moving onto the en-passant target removes the pawn beside it |
| ChessRules.MoveInternalCastles | chess/chess.py:234-236 | a white king moving two files right brings the corner rook to f1 and empties h1 |
| ChessRules.MoveInternalFrame | chess/chess.py:225-247 | a move changes no square other than source, target, the en-passant victim and the castling rook squares |
| ChessRules.FindFrom | chess/chess.py:199-204 | the king search returns the first matching square in row-major order, or None exactly when there is no such king |
| ChessRules.InCheckMeans | chess/chess.py:206-214 | in check iff the king is missing or some enemy piece's unchecked moves include the king's square |
| ChessRules.KeepMembers | chess/chess.py:154-156 | with check_check, a target is kept iff simulate_move accepts it |
| ChessRules.ValidMovesShape | chess/chess.py:141-197 | get_valid_moves is the pseudo-legal targets (filtered by simulate_move when checking) followed by the castling targets for a king, and its trial moves clear the castling rights of the piece moved |
| ChessRules.UncheckedMoves | chess/chess.py:141-197 | without check_check every pseudo-legal target is returned and the rights are unchanged |
| ChessRules.ValidMovesChecked | chess/chess.py:154-196 | every checked move either passed simulate_move or is a castling target appended without that test |
| ChessRules.ValidMovesRights | chess/chess.py:216-223 | generating moves never sets a castling right |
| ChessRules.CastleTargets | chess/chess.py:189-196 | castling targets are only the g- and c-file squares of the king's home row |
| ChessRules.CastlingNeverOffered | chess/chess.py:184-196 | as written, a king on its home square is never offered a castling move: the trial of the adjacent square has already cleared the rights |
| ChessRules.HomeKingRightsCleared | chess/chess.py:184-196 | the trial of an empty f-file (d-file) square clears the king-side (queen-side) right before the castling test reads it |
| ChessRules.ValidMovesRestoring | chess/chess.py:216-223 | the intended generator, whose trials restore the rights, leaves the rights unchanged |
| ChessRules.CastlingOfferedWhenRestored | chess/chess.py:189-192 | with rights restored, a king on its home square with the right, f and g empty and not in check is offered the king-side castle |
| ChessRules.BlackMatedRecordedAsBlack | chess/chess.py:262-263 | as written, a side with no move in check is recorded with winner 'black', also when black is the side that is stuck |
| ChessRules.StuckWinnerIntended | chess/chess.py:262-263 | the intended outcome: a stuck side in check loses to the other colour, otherwise the game is a draw |
| ChessRules.StuckWinnerDiffers | chess/chess.py:262-263 | the outcome as written agrees with the intended one except exactly when black is stuck in check |
| ChessRules.ScanFromMeans | chess/chess.py:253-259 | the has-moves scan is true if some own piece has a checked move, and (with no castling rights left) only then |
| ChessRules.FittingAsk | chess/chess.py:253-274 | a per-square ask fits the game, and the scan and the collection run with it are ScanFrom and AllMoves |
| ChessRules.FitsAt | chess/chess.py:257-259 | a fitting ask answers an own piece's square with get_valid_moves's moves and rights, and any other square with nothing |
| ChessRules.ScanFromShrinks | chess/chess.py:253-259 | the scan never sets a castling right |
| ChessRules.AllMovesMeans | chess/chess.py:267-274 | every move get_all_moves lists is an own piece's checked move, and every own piece's target accepted by simulate_move is listed |
| ChessRules.PlayMeans | chess/chess.py:249-265 | make_move succeeds iff simulate_move accepts; a rejected move only clears the trial's rights; an accepted one applies move_piece_internal and flips the turn |
| ChessRules.PieceValueSigned | chess/chess.py:279-280 | black values are the negation of white values, white values are positive, empty is 0 |
| ChessRules.EvaluateSwap | chess/chess.py:282 | swapping the colours of every piece negates the material sum |
| ChessRules.EvaluateBounded | chess/chess.py:282 | the material sum lies in [-57600, 57600] |
| Chess.Board.constructor | chess/chess.py:93-111 | the initial position: standard setup, white to move, all castling rights, no en-passant target, no winner, empty history |
| Chess.Board.Reset | chess/chess.py:96-111 | the same initial position and an empty history |
| Chess.Board.SaveState | chess/chess.py:113-115 | a snapshot of board, turn, rights, en-passant target and winner is pushed and nothing else changes |
| Chess.Board.RestoreState | chess/chess.py:129-132 | the state becomes the snapshot and the history is unchanged |
| Chess.Board.Undo | chess/chess.py:117-127 | two snapshots are popped when there are at least two (the older one restored), one when there is one, and false is returned with nothing changed on an empty history |
| Chess.Board.MovePieceInternal | chess/chess.py:225-247 | the state becomes MoveInternal of the old state: move, en-passant capture and target, promotion, castling rook and rights |
| Chess.Board.SimulateMove | chess/chess.py:216-223 | the result is whether the mover's king is safe after the move; board, turn, en-passant target and winner are restored, but the castling rights stay cleared as the move cleared them |
| Chess.Board.FindKing | chess/chess.py:199-204 | the scan returns the first square holding the king, or None |
| Chess.Board.IsInCheck | chess/chess.py:206-214 | the scan returns InCheck and leaves the state unchanged |
| Chess.Board.KingMoves | chess/chess.py:234-241 | a king's move clears both rights of its colour, and a two-file move brings the corner rook beside it; nothing else changes |
| Chess.Board.RookMoves | chess/chess.py:242-247 | a rook leaving its corner gives up that side's right; the board and everything else are unchanged |
| Chess.Board.AttackRow | chess/chess.py:209-213 | one row of is_in_check's scan: a hit means an enemy piece attacks the king's square; no hit means none does up to the end of the row; the state is unchanged |
| Chess.Board.AttackSquare | chess/chess.py:211-213 | true iff the square holds an enemy whose unchecked moves reach the king's square; the state is unchanged |
| Chess.Board.StepMoves | chess/chess.py:173-188 | a knight's or king's steps yield the targets add accepts, each filtered by simulate_move when checking, with the rights its trials clear |
| Chess.Board.SlideMoves | chess/chess.py:176-182 | each ray yields its squares up to the first blocker, each filtered by simulate_move when checking, with the rights its trials clear |
| Chess.Board.PawnMoves | chess/chess.py:160-171 | the pawn's pushes, captures and en-passant square, each filtered by simulate_move when checking, with the rights its trials clear |
| Chess.Board.CastleMoves | chess/chess.py:189-196 | the castling squares are appended exactly as CastleTargets gives them, and the state is unchanged |
| Chess.Board.GetValidMoves | chess/chess.py:141-197 | the generator returns ValidMoves's list and leaves the rights as its trials cleared them; board, turn, en-passant target, winner and history are unchanged |
| Chess.Board.AskSquare | chess/chess.py:256-259 | one square of the has-moves scan: the scan from this square equals the scan from the returned square with the returned flag; after an own piece with a generated move that is the next row with the flag set, otherwise the next square |
| Chess.Board.HasMoves | chess/chess.py:253-259 | for an ask that fits the board, the flag and the rights left are those of the whole scan from the first square, which FittingAsk equates with ScanFrom |
| Chess.Board.RecordOutcome | chess/chess.py:253-263 | with no move for the new side the winner is recorded as the source writes it; otherwise only the scan's rights change |
| Chess.Board.RecordStuck | chess/chess.py:261-262 | a stuck side's outcome is StuckWinner as written ('black' in check, otherwise a draw, with black's own check overriding), and nothing else changes |
| Chess.Board.MakeMove | chess/chess.py:249-265 | the state and history become those of Play: history grows by the pre-move snapshot only when simulate_move accepts |
| Chess.Board.CollectAt | chess/chess.py:270-273 | one square of get_all_moves: an own piece's generated moves are appended, each paired with its square, and the collection goes on from the next square with the rights the generation left |
| Chess.Board.GetAllMoves | chess/chess.py:267-274 | for an ask that fits the board, the list and the rights left are those of the whole collection, which FittingAsk equates with AllMoves |
| Chess.MateScoredAsMaterial | chess/chess.py:296-298 | a side with no moves scores the material sum, so a mate is scored as material only |
| Chess.Minimax | chess/chess.py:295-316 | the search with integer window is fail-soft for the generic Minimax of the chess game and exact inside the window |
| Chess.MinimaxFinite | chess/chess.py:295-316 | every search value is finite |
| Chess.WindowBeatsStart | chess/chess.py:288-291 | when the children's values lie in the root window, the first of them beats the 99999 start, so the random first guess is replaced |
| Chess.GetBestMove | chess/chess.py:284-293 | None iff black has no moves; otherwise a black move, and when the values lie in the (-10000, 10000) window the first one with strictly minimal value |
| Checkers.Board.constructor | checkers/checkers.py:94-98 | the initial position: the opening grid, 12 pieces and no kings per colour |
| Checkers.Board.CreateBoard | checkers/checkers.py:100-112 | the grid becomes the opening grid, white pieces on the dark squares of rows 0-2 and red ones on rows 5-7; the counters are untouched |
| Checkers.InitialRowCount | checkers/checkers.py:100-112 | every row of the opening grid holds 4 white pieces (rows 0-2), 4 red pieces (rows 5-7) or none |
| Checkers.InitialCounted | checkers/checkers.py:96-112 | the opening grid holds exactly 12 pieces of each colour, matching red_left = white_left = 12 |
| Checkers.Board.Move | checkers/checkers.py:140-147 | the two squares are swapped and the piece takes its new square; reaching row 0 or 7 crowns it and increments its colour's king counter, even for a piece already a king |
| Checkers.MoveKeepsCounts | checkers/checkers.py:140-142 | moving a piece onto an empty square keeps both colours' piece counts on the grid |
| Checkers.Board.Remove | checkers/checkers.py:152-157 | every listed square is emptied and red_left or white_left is decremented once per listed piece |
| Checkers.RemoveAll | checkers/checkers.py:152-157 | the counters drop by the number of listed pieces of each colour, the king counters are unchanged, and every listed square ends empty |
| Checkers.RemoveKeepsCounted | checkers/checkers.py:152-157 | removing distinct pieces that are on the board keeps the counters equal to the pieces on the grid |
| Checkers.RemoveLeaves | checkers/checkers.py:152-157 | squares not listed are unchanged |
| Checkers.Winner | checkers/checkers.py:159-162 | AI WINS iff red_left <= 0; RED WINS iff red_left > 0 and white_left <= 0; None iff both are positive |
| Checkers.Evaluate | checkers/checkers.py:128-130 | the integer score is exactly twice white_left - red_left + 0.5 (white_kings - red_kings) |
| Checkers.EvaluateOrder | checkers/checkers.py:128-130 | doubling preserves the order and equality of scores, so the search picks the same moves |
| Checkers.Board.GetValidMoves | checkers/checkers.py:164-176 | the dictionary built from the four traversals equals ValidMoves |
| Checkers.Board.Traverse | checkers/checkers.py:178-218 | the traversal loop returns the walk of the spec (Walk) in that direction |
| Checkers.Board.Land | checkers/checkers.py:183-192 | an empty landing square records the move with its jumped pieces and the follow-up traversals |
| Checkers.ValidMovesIsReach | checkers/checkers.py:164-176 | the moves are the upward searches for red pieces and kings followed by the downward searches for white pieces and kings |
| Checkers.WalkIsReach | checkers/checkers.py:178-218 | a traversal in one direction yields at most the single step or single jump the reference Reach describes, since the follow-up search starts at its own stop row |
| Checkers.ReachSide | checkers/checkers.py:178-218 | a direction yields at most one move and it lies on that side |
| Checkers.ValidMovesShape | checkers/checkers.py:164-218 | every key is an empty square on the board reached by a diagonal step, or by a jump whose value lists exactly the jumped opponent piece |
| Checkers.StepsOffered | checkers/checkers.py:164-192 | an empty diagonal neighbour in a permitted direction is always offered as a step with nothing jumped |
| Checkers.Board.GetAllPieces | checkers/checkers.py:132-138 | the row-major scan returns exactly the pieces of that colour |
| Checkers.PiecesUpTo | checkers/checkers.py:132-138 | every listed piece is on its square with that colour, and every such piece is listed |
| Checkers.SimulateOnCopy | checkers/checkers.py:244-248 | the move applied on a deep copy yields the position Simulate describes, moving the piece then removing the skipped pieces |
| Checkers.PlayAll | checkers/checkers.py:253-258 | one piece's moves yield the child positions in dictionary order |
| Checkers.GetAllMoves | checkers/checkers.py:250-259 | the collected positions are the children of the position for that colour |
| Checkers.ChildrenCounted | checkers/checkers.py:250-259 | every child keeps the counters equal to the pieces on its grid |
| Checkers.StuckLoses | checkers/checkers.py:226-242 | a side with no move and no winner yet scores -inf when maximizing and +inf when minimizing |
| Checkers.Minimax | checkers/checkers.py:221-242 | the plain search returns exactly the generic Minimax value; at depth 0 or with a winner it returns the position itself; otherwise None iff there is no child, else the last child whose value equals the best |
| Checkers.Board.Copy | checkers/checkers.py:255 | a deep copy has the same state |
| OneDChess.Game.constructor | 1dchess/1dchess.py:74-78 | the board K R N . . n r k, WHITE to move, no winner |
| OneDChess.Owner | 1dchess/1dchess.py:80-83 | codes 1-3 belong to WHITE, 4-6 to BLACK, anything else to nobody |
| OneDChess.Game.GetValidMoves | 1dchess/1dchess.py:85-120 | the move loops return ValidMoves: knight hops, rook slides or king steps by piece code |
| OneDChess.Game.HopAll | 1dchess/1dchess.py:91-97 | the hop loop over both directions returns Hops |
| OneDChess.Game.SlideFrom | 1dchess/1dchess.py:99-111 | the rook loop in one direction returns the slide of the spec |
| OneDChess.Game.SlideStep | 1dchess/1dchess.py:101-111 | one iteration of the rook loop adds the target and either stops (capture, own piece, edge) or continues with the rest of the slide |
| OneDChess.HopTargets | 1dchess/1dchess.py:91-97 | a knight (distance 2) or king (distance 1) target is exactly idx +/- distance inside 0..7 that is empty or enemy-occupied |
| OneDChess.SlideIsRay | 1dchess/1dchess.py:101-111 | a square is on the slide iff every square strictly between is empty and it is empty or enemy-occupied |
| OneDChess.RookTargets | 1dchess/1dchess.py:99-111 | rook targets are exactly the rays in the two directions: over empty squares, including the first enemy, stopping before own pieces and the edge |
| OneDChess.NoOwnTarget | 1dchess/1dchess.py:85-120 | no target is off the board, the piece's own square, or a square holding an own piece |
| OneDChess.Game.MakeMove | 1dchess/1dchess.py:122-129 | the piece moves to end and start is emptied; capturing a king sets the winner to the capturing side; the turn toggles |
| OneDChess.Game.BlackPieces | 1dchess/1dchess.py:132 | the squares listed are the BLACK-owned squares in index order |
| OneDChess.BlackSquaresIn | 1dchess/1dchess.py:132 | a square is listed iff it is below n and BLACK-owned |
| OneDChess.Game.CollectMoves | 1dchess/1dchess.py:135-145 | the loops collect AllMoves, the scored (score, from, to) triples in the source's order |
| OneDChess.Game.ScoreEach | 1dchess/1dchess.py:137-145 | one piece's moves are scored in order |
| OneDChess.AllMovesAreBlackMoves | 1dchess/1dchess.py:132-145 | a triple is collected iff it starts on a BLACK piece, ends on one of its valid targets and carries its score: 100 for the white king, 10 for another capture, +1 for moving left |
| OneDChess.BestMoves | 1dchess/1dchess.py:147-150 | the best score is the maximum of all scores and the candidates are the moves with that score, in their original order |
| OneDChess.AiPick | 1dchess/1dchess.py:147-152 | the chosen move is a collected move whose score is maximal |
| OneDChess.PickIsChoose | 1dchess/1dchess.py:147-152 | the random choice among the candidates is the generic uniform tie-break over the scores |
| OneDChess.AiTakesKing | 1dchess/1dchess.py:139-152 | whenever the white king can be taken, the AI takes it |
| OneDChess.Game.AiMove | 1dchess/1dchess.py:131-152 | with no move nothing changes; otherwise the chosen top-scoring move is made as make_move makes it |
| GoGrid.SetAt | go/go.py:128-129 | writing a point changes that point only |
| GoGrid.ConnectedSym | go/go.py:95-112 | connection through same-colour orthogonal neighbours is symmetric |
| GoGrid.ConnectedTrans | go/go.py:95-112 | connection is transitive |
| GoGrid.ComponentOf | go/go.py:95-112 | every member of a component has the same component, and all its members are on the board with the same contents |
| GoGrid.ComponentClosed | go/go.py:101-111 | a component is closed under same-colour neighbours |
| GoGrid.ClosedHasComponent | go/go.py:101-111 | any closed set holding a point holds its whole component |
| GoGrid.GroupMembers | go/go.py:95-98 | a group holds only on-board stones of the start's colour, so the group of an empty point is empty |
| GoGrid.NoLiberties | go/go.py:114-123 | a group has no liberty iff no point orthogonally next to one of its stones is empty |
| GoGrid.Clear | go/go.py:145-146 | clearing a group empties exactly its points |
| GoGrid.StonesClear | go/go.py:170-173 | removing a set of one colour's stones lowers that colour's count by its size and leaves the other colour alone |
| GoGrid.CaptureCounts | go/go.py:163-173 | the capture loop removes only opponent stones; the opponent loses exactly the captured count and the mover's stones are untouched |
| GoGrid.PlayCounts | go/go.py:159-173 | a stone on an empty point adds one stone of the mover, and the opponent loses exactly the number of stones captured |
| GoGrid.TerritoryIn | go/go.py:205-230 | a point is a colour's territory iff it is empty and its empty region borders that colour and not the other |
| GoGrid.AreaBound | go/go.py:191-237 | stones and single-colour regions never overlap, so b_area + w_area <= 81 |
| Go.GetGroup | go/go.py:95-112 | the stack-and-visited flood fill returns exactly the orthogonally connected same-colour stones containing the point, and the empty set on an empty point |
| Go.CountLiberties | go/go.py:114-123 | the count is the number of distinct empty points orthogonally next to the group |
| Go.RemoveGroup | go/go.py:145-146 | the removal loop empties exactly the group and adds its size to the count |
| Go.CaptureNeighbour | go/go.py:140-146 | an adjacent opponent group is removed and counted iff it has no liberty |
| Go.CaptureAround | go/go.py:138-146 | the four-neighbour loop performs the captures of the spec in the order up, down, left, right |
| Go.GoBoard.IsValidMove | go/go.py:125-154 | the check, run on a copy so the grid is unchanged, accepts iff the point is empty, the own group has a liberty after the captures (no suicide), and the result is not the position two entries back in history (ko) |
| Go.GoBoard.PlaceStone | go/go.py:156-179 | a rejected move returns False and changes nothing; an accepted one leaves the played-and-captured grid, credits the captured count to the mover's prisoners, sets last_move, switches the turn, clears passed and appends the grid to history |
| Go.GoBoard.Commit | go/go.py:159-179 | the accepted move's state update |
| Go.PlayAndCredit | go/go.py:159-175 | the grid after placing and capturing, and the prisoners with the mover credited |
| Go.GoBoard.PassTurn | go/go.py:181-189 | a first pass sets passed, switches the turn and appends the grid to history; a second consecutive pass ends the game and stores the final score |
| Go.GoBoard.SaveState | go/go.py:91-93 | the grid is appended to history and nothing else changes |
| Go.GoBoard.constructor | go/go.py:80-89 | an empty grid, Black to move, no prisoners, no pass, not over, and the empty grid as the only history entry |
| Go.FillRegion | go/go.py:205-230 | the flood fill of an empty point marks exactly its empty region visited, returns its size, and whether it borders a black and a white stone |
| Go.FillStep | go/go.py:214-225 | one pass of the fill loop keeps the fill invariant (the points seen so far and those on the stack lie in the start's empty region, region and seen set agree in size, every seen point's empty neighbours are seen or on the stack, the border flags describe the seen points) and either sees a new point or shortens the stack |
| Go.ScanAround | go/go.py:220-225 | the four-neighbour loop pushes exactly the on-board empty neighbours in the order up, down, left, right, and sets each border flag iff some neighbour holds a stone of that colour |
| Go.ScorePoint | go/go.py:202-230 | one point of the scan: a stone credits its colour, an unvisited empty point scores its region for the single colour it borders, nothing for a neutral region |
| Go.ScoreRow | go/go.py:201-230 | one row of the scan keeps the spec of the scan |
| Go.AreaScore | go/go.py:191-230 | the double loop computes each colour's area: its stones plus the empty regions that border it alone |
| Go.ScanTotals | go/go.py:201-230 | the full scan's totals are the two areas |
| Go.GoBoard.CalculateScore | go/go.py:191-237 | score_res becomes black's area and, for white, twice its area plus 13 (komi 6.5 kept doubled), each area being the colour's stones plus the empty regions bordering it alone; nothing else changes |
| Backgammon.Board.constructor | backgammon/backgammon.py:88-94 | a new board is exactly the standard opening layout |
| Backgammon.Board.SetupBoard | backgammon/backgammon.py:96-105 | the eight opening points are written and every other point, the bar and the borne-off counts are untouched |
| Backgammon.OpeningLayout | backgammon/backgammon.py:96-105 | the opening layout is well formed, holds 15 checkers of each colour on the points, and has empty bars and nothing borne off |
| Backgammon.Board.MovePiece | backgammon/backgammon.py:114-137 | the new board is the old one with one checker lifted from the start (bar or point) and landed on the target (point or off) |
| Backgammon.Board.LiftChecker | backgammon/backgammon.py:115-120 | lifting removes one checker from the bar or the start point, and an emptied point loses its colour |
| Backgammon.Board.LandChecker | backgammon/backgammon.py:122-137 | landing bears off, hits a lone opposing checker onto its bar, takes an empty point, or stacks on an own point |
| Backgammon.LiftKeeps | backgammon/backgammon.py:115-120 | lifting an own checker keeps the layout well formed and lowers that colour's total by one, the other colour's total unchanged |
| Backgammon.LandKeeps | backgammon/backgammon.py:122-137 | landing on an unblocked point or off keeps the layout well formed, raises the mover's total by one and keeps the opponent's total (a hit checker moves to the bar) |
| Backgammon.IsValidMove | backgammon/backgammon.py:107-112 | a destination is accepted only on one of the 24 points, and an empty point, a lone checker of either colour or an own point is always accepted, so only a point held by two or more opposing checkers is refused |
| Backgammon.ValidMoveOwns | backgammon/backgammon.py:107-112 | is_valid_move accepts an on-board point exactly when the checker landing there would own it: an empty point, an own point, or a lone opposing checker, never a point held by two or more opposing checkers |
| Backgammon.MoveConserves | backgammon/backgammon.py:114-137 | an applicable move keeps the layout well formed and keeps conservation: each colour's checkers on points, bar and off add up as before |
| Backgammon.MoveHits | backgammon/backgammon.py:131-133 | landing on a lone opposing checker leaves one mover's checker there and puts the hit checker on its owner's bar |
| Backgammon.PointSumUpdate | backgammon/backgammon.py:114-137 | rewriting one point changes a colour's count on the points by exactly the difference at that point |
| Backgammon.PointSumCleared | backgammon/backgammon.py:91 | the all-empty point list holds no checkers of either colour |
| Backgammon.Board.CanBearOff | backgammon/backgammon.py:139-148 | bearing off is allowed iff the bar is empty and no own checker lies outside the home quadrant |
| Backgammon.Board.Furthest | backgammon/backgammon.py:184-190 | an inexact bear-off is allowed iff no own checker lies further from home inside the home quadrant |
| Backgammon.FacesMembers | backgammon/backgammon.py:152 | the distinct dice faces are exactly the faces that occur in the roll |
| Backgammon.FacesAscending | backgammon/backgammon.py:152 | the distinct faces are listed strictly ascending, each between 1 and 6 |
| Backgammon.Board.BarEntries | backgammon/backgammon.py:155-165 | the bar entries are, per distinct face in order, the entry onto the named point when it is not blocked |
| Backgammon.EntryMoveIs | backgammon/backgammon.py:157-164 | a move is the entry for a face iff it comes from the bar onto the point the face names and that point holds at most one opposing checker |
| Backgammon.EntryMovesMembers | backgammon/backgammon.py:156-164 | a move is among the bar entries iff its face occurs in the roll and it is that face's entry |
| Backgammon.Board.DiceFrom | backgammon/backgammon.py:174-199 | the moves from one point are, per distinct face in order, the normal move or the bear-off that face allows |
| Backgammon.DieMoveIs | backgammon/backgammon.py:175-199 | a move from a point with a face is offered iff it lands on an unblocked point, or bears off exactly, or bears off with a larger face when bearing off is allowed and nothing lies further back |
| Backgammon.DieMovesMembers | backgammon/backgammon.py:174-199 | a move from a point is offered iff its face occurs in the roll and that face allows it |
| Backgammon.Board.RegularMoves | backgammon/backgammon.py:168-199 | the regular moves are, point by point ascending, the moves of every own occupied point |
| Backgammon.RegularMembers | backgammon/backgammon.py:170-199 | a move is a regular move iff it starts on a point below the scan bound and is one of that point's moves |
| Backgammon.Board.GetValidMoves | backgammon/backgammon.py:150-201 | the move list is the bar entries when a checker is on the bar, else the regular moves with bearing off as the home check allows |
| Backgammon.MoveListIsLegal | backgammon/backgammon.py:150-201 | a move is in the list iff it is legal: its face was rolled and it either enters from the bar (when one is there) or advances an own checker onto an unblocked point or off by the bear-off rules |
| Backgammon.ListedMovesApplicable | backgammon/backgammon.py:107-137 | every listed move can be played: its start holds an own checker and its target point is not blocked |
| Backgammon.AI.constructor | backgammon/backgammon.py:205-206 | the AI plays the colour it is given |
| Backgammon.AI.ScoreMove | backgammon/backgammon.py:217-234 | a move scores 50 for a hit, 100 for bearing off and 20 for making a point of two |
| Backgammon.AI.Pick | backgammon/backgammon.py:213-238 | the chosen index has the highest score and every earlier move scores strictly less |
| Backgammon.AI.GetMove | backgammon/backgammon.py:208-240 | no move is returned iff the move list is empty; otherwise the first move of highest score |
| Stratego.RanksDistinct | stratego/stratego.py:26-39 | two kinds of piece share a rank only when they are the same kind |
| Stratego.IsMovable | stratego/stratego.py:99 | a piece can move iff it is neither a flag nor a bomb |
| Stratego.BuildPool | stratego/stratego.py:118-120 | the setup pool lists every kind, in the table's order, as many times as its count |
| Stratego.PoolSize | stratego/stratego.py:118-120 | the pool holds 40 pieces, one side's full army |
| Stratego.PoolContents | stratego/stratego.py:118-120 | each kind occurs in the pool exactly as many times as the setup table says |
| Stratego.PoolOfCounts | stratego/stratego.py:119-120 | a pool built from distinct kinds holds each listed kind its count times and no other kind |
| Stratego.PoolStep | stratego/stratego.py:119-120 | adding a kind to the pool lengthens it by that kind's count |
| Stratego.OccConcat | stratego/stratego.py:120 | occurrences in a joined pool add up |
| Stratego.OccRepeat | stratego/stratego.py:120 | a run of one kind holds that kind its length times and no other kind |
| Stratego.Board.GetValidMoves | stratego/stratego.py:149-170 | the targets are, direction by direction, the squares of the ray from the piece; immovable pieces and empty squares have none |
| Stratego.Board.Scan | stratego/stratego.py:156-169 | scanning one direction yields exactly that direction's ray |
| Stratego.RayIs | stratego/stratego.py:156-169 | a square is on a ray iff it is reached after some number of empty, dry squares (more than none only for a scout) and is itself dry and empty or enemy-held |
| Stratego.RaySound | stratego/stratego.py:156-169 | every square on a ray is reached as the walk describes |
| Stratego.RayComplete | stratego/stratego.py:156-169 | every square the walk reaches is on the ray |
| Stratego.RayHead | stratego/stratego.py:158-169 | the ray's first square is landable, and any further square lies past an empty first square and only for a scout |
| Stratego.OffBoardRay | stratego/stratego.py:157 | a ray that starts off the board is empty |
| Stratego.PathExtend | stratego/stratego.py:160-169 | a clear square followed by a clear path is a longer clear path |
| Stratego.PathTail | stratego/stratego.py:160-169 | a longer clear path starts with a clear square followed by a shorter clear path |
| Stratego.SqShift | stratego/stratego.py:168-169 | stepping once then walking is walking one step further |
| Stratego.DirUnit | stratego/stratego.py:153 | each of the four directions is one orthogonal step |
| Stratego.RaysFromStep | stratego/stratego.py:155-169 | the targets of the first n directions are those of the first n-1 plus the n-th direction's ray |
| Stratego.RaysFromDir | stratego/stratego.py:155-169 | every target lies on the ray of one of the four directions |
| Stratego.ValidMovesReach | stratego/stratego.py:149-170 | every target comes from a movable piece and is reached along one direction |
| Stratego.TargetsLandable | stratego/stratego.py:149-170 | every target is another, dry square on the board that is empty or held by the opponent |
| Stratego.Board.ResolveCombat | stratego/stratego.py:200-224 | both pieces are revealed, the combat display is set for 60 frames with the outcome's text, and the outcome and survivor follow the combat rules; grid, turn, winner and losses are untouched |
| Stratego.DrawIffSameKind | stratego/stratego.py:216-224 | combat ends in mutual destruction exactly when both pieces are the same kind (other than a flag) |
| Stratego.BombStops | stratego/stratego.py:213-221 | a bomb destroys any attacker except a miner, which defuses it |
| Stratego.RankDecides | stratego/stratego.py:216-221 | among ordinary pieces the higher rank wins, and attacker and defender swap results when they swap roles |
| Stratego.SpyOnlyStrikes | stratego/stratego.py:210-221 | a spy beats only the marshal, and only when it strikes; a marshal attacking a spy wins |
| Stratego.Board.RecordLoss | stratego/stratego.py:226-228 | a lost piece's kind is appended to its owner's captured list and nothing else changes |
| Stratego.Board.MovePiece | stratego/stratego.py:172-198 | the grid becomes the combat outcome's grid, the lost pieces are recorded per owner in order, the turn passes, a captured flag makes the mover the winner, and any combat is displayed |
| Stratego.Board.Settle | stratego/stratego.py:179-194 | each combat outcome rewrites the two squares and records its losses as move_piece's branches do |
| Stratego.Board.SettleWin | stratego/stratego.py:181-194 | on WIN, WIN_COMBAT or DEFUSE the attacker takes the target and the start empties; a beaten defender is recorded as lost except a captured flag, which makes the attacker's owner the winner; turn and combat display are untouched |
| Stratego.Board.SettleLoss | stratego/stratego.py:185-187 | on LOSE_COMBAT the attacker is recorded as lost, the start empties and the revealed defender stays; the winner is unchanged |
| Stratego.Board.SettleDraw | stratego/stratego.py:188-190 | on DRAW both pieces are recorded as lost, attacker first, and both squares empty; the winner is unchanged |
| Stratego.MoveKeepsPieces | stratego/stratego.py:172-198 | for each side and kind, the pieces on the board after a move plus those recorded lost (plus a captured flag) equal the pieces before it |
| Stratego.KeepsOnEmpty | stratego/stratego.py:195-197 | a move onto an empty square keeps every piece count |
| Stratego.KeepsOnWin | stratego/stratego.py:181-184 | a winning attack removes exactly the recorded defender |
| Stratego.KeepsOnLoss | stratego/stratego.py:185-187 | a lost attack removes exactly the recorded attacker |
| Stratego.KeepsOnDraw | stratego/stratego.py:188-190 | a draw removes exactly the two recorded pieces |
| Stratego.KeepsOnCapture | stratego/stratego.py:191-194 | a flag capture removes exactly the flag, which is not recorded |
| Stratego.PutCount | stratego/stratego.py:183-197 | writing one square changes the counts by what left and what arrived there |
| Stratego.PutTwiceCount | stratego/stratego.py:183-197 | writing two different squares changes the counts by both squares' differences |
| Stratego.AI.constructor | stratego/stratego.py:232 | the AI keeps its difficulty |
| Stratego.AI.CollectMoves | stratego/stratego.py:234-240 | the AI's move list is, square by square in row order, every red piece paired with each of its targets |
| Stratego.RedMovesAre | stratego/stratego.py:234-240 | a pair is in the AI's list iff it starts on a red piece and ends on one of that piece's targets |
| Stratego.RedMovesConsidered | stratego/stratego.py:234-240 | every listed move starts on a red piece and ends on an empty or blue-held square |
| Stratego.AI.ScoreMove | stratego/stratego.py:246-257 | a move is scored by the revealed-defender rank rule, the unknown-defender guess, or +1 for advancing onto an empty square, and always above -1000 |
| Stratego.AI.Pick | stratego/stratego.py:243-260 | the chosen move has the highest score and every earlier move scores strictly less |
| Stratego.AI.GetMove | stratego/stratego.py:233-262 | no move iff the list is empty; at difficulty 2 or more the first best-scoring move, otherwise the move the random pick names |
| Stratego.AI.CollectRow | stratego/stratego.py:236-240 | one row's contribution to the AI's list is each red piece of that row paired with its targets, left to right |
| Stratego.RowMovesMembers | stratego/stratego.py:236-240 | a pair is in a row's contribution iff it starts on a red piece of that row and ends on one of its targets |
| Stratego.RedMovesMembers | stratego/stratego.py:235-240 | a pair is in the first n rows' contribution iff it starts on a red piece of those rows and ends on one of its targets |
| Stratego.ScanSquare | stratego/stratego.py:158-169 | one square of the scan either extends the ray found so far and continues, or ends it with exactly the ray |
| Queens.IsSafe | queens/queens.py:51-55 | the column is safe for row r iff no earlier row uses it and the row just above is not diagonally adjacent |
| Queens.SafeIff | queens/queens.py:51-55 | safety unfolds to: a fresh column, and at least two columns away from the queen in the previous row |
| Queens.SafePrefix | queens/queens.py:51-55 | safety reads only the rows already placed |
| Queens.PlacedPrefix | queens/queens.py:57-65 | a partial placement's validity reads only its placed rows |
| Queens.PlacedIff | queens/queens.py:57-65 | a full placement is valid iff every column is on the board, no two rows share a column and neighbouring rows are at least two columns apart |
| Queens.Solve | queens/queens.py:57-65 | the placed rows are kept; success means a full valid placement, failure means no valid completion of the rows placed so far exists (whatever the column order) |
| Queens.DeadEnd | queens/queens.py:62-64 | a column whose placement cannot be completed is excluded |
| Queens.Unsafe | queens/queens.py:62 | an unsafe column is excluded |
| Queens.Exhausted | queens/queens.py:61-65 | when every column of the shuffled order is excluded the partial placement has no completion |
| Queens.SolvableSizes | queens/queens.py:67-68 | every even size from 6 up has a valid placement, so the solver does not fail on the game's sizes |
| Queens.EvenThenOddPlaced | queens/queens.py:67-68 | the even-columns-then-odd-columns placement is a valid one for twice m rows, m at least 3 |
| Queens.EvenThenOddDistinct | queens/queens.py:67-68 | that placement uses each column once |
| Queens.EvenThenOddApart | queens/queens.py:67-68 | neighbouring rows of that placement are at least two columns apart |
| Queens.EvenThenOdd | queens/queens.py:67-68 | that placement has one column per row |
| Queens.GenerateSolution | queens/queens.py:67-69 | the generated solution has a queen in every row and is a valid placement |
| Queens.Game.constructor | queens/queens.py:29-46 | a new game has an empty grid, no history, zero undo and hint counts, is not won, and its solution has one queen per row forming a valid placement |
| Queens.Game.SaveState | queens/queens.py:190-192 | the current grid is pushed onto the history, dropping the oldest beyond 50; nothing else changes |
| Queens.PushKeepsNewest | queens/queens.py:190-192 | after a push the history holds at most 50 grids, the newest last, the older ones kept or shifted by one |
| Queens.Game.Undo | queens/queens.py:194-198 | with no history nothing changes; otherwise the newest saved grid comes back, is dropped from the history, the undo count rises and the game is not won |
| Queens.Game.AutoMarkX | queens/queens.py:180-188 | on a queen, the state is saved and every empty cell sharing its row, column, neighbourhood or region is crossed; elsewhere nothing changes |
| Queens.MarkRow | queens/queens.py:185-188 | one row of the marking crosses exactly the empty cells that clash with the queen |
| Queens.MarkKeepsRules | queens/queens.py:180-188 | crossing cells keeps the queens, so the rules and the win are unchanged |
| Queens.Game.CheckRules | queens/queens.py:213-221 | a cell violates iff it holds a queen and another queen shares its row, column, neighbourhood or region |
| Queens.ViolationMutual | queens/queens.py:213-221 | a clash between two queens is a violation of both |
| Queens.RulesReadQueensOnly | queens/queens.py:213-221 | violations and the win depend only on where the queens are |
| Queens.Game.CountQueens | queens/queens.py:264 | the count is the number of queens on the grid |
| Queens.Game.NoViolation | queens/queens.py:265 | the answer is true iff no cell violates the rules |
| Queens.Game.CheckWin | queens/queens.py:263-266 | the game becomes won when it has size many queens and no violation, and a won game stays won; nothing else changes |
| Queens.WonOneQueenPerRow | queens/queens.py:263-266 | a won grid has exactly one queen in each row |
| Queens.CountRows | queens/queens.py:264 | with at most one queen per row, k rows hold at most k queens, and exactly k only when each holds one |
| Queens.TwoInRow | queens/queens.py:219 | a row holding two queens has two distinct queen columns |
| Queens.FirstQueen | queens/queens.py:264 | a row holding a queen has a queen column |
| Queens.RowQueensSame | queens/queens.py:264 | rows with queens in the same places count the same |
| Queens.GridQueensSame | queens/queens.py:264 | grids with queens in the same places count the same |
| Queens.SolutionGrid | queens/queens.py:69 | the solution drawn on a grid has a queen exactly at each row's solution column |
| Queens.OneQueenRow | queens/queens.py:264 | a row with its only queen at one column counts one queen when that column is within reach |
| Queens.SolutionCount | queens/queens.py:264 | the solution grid holds one queen per row |
| Queens.SolutionWins | queens/queens.py:263-266 | the solution drawn on the grid wins whenever the regions give each solution queen its own region |
| Queens.Missing | queens/queens.py:207 | the missing cells are exactly the solution cells that do not hold a queen |
| Queens.Set | queens/queens.py:205-210 | writing one cell keeps the grid square |
| Queens.HintGrid | queens/queens.py:203-210 | a hint keeps the grid square |
| Queens.HintProgress | queens/queens.py:207-210 | placing a queen on a missing cell leaves one missing cell fewer |
| Queens.MissingSame | queens/queens.py:207 | placing a queen outside the solution leaves the missing cells as they were |
| Queens.AutoHintProgress | queens/queens.py:206-210 | an automatic hint with cells still missing reduces them by exactly one |
| Queens.Game.ProvideHint | queens/queens.py:200-211 | the state is saved, the hint count rises, the grid becomes the hinted grid (a queen or cross on the chosen cell, or one missing queen placed) and the win is rechecked |
| Queens.Game.Toggle | queens/queens.py:248-251 | the state is saved; a left click toggles a queen, a right click toggles a cross, and the win is rechecked |
| Sudoku.IsSafe | sudoku/sudoku.py:77-89 | the digit is safe iff it occurs nowhere in the cell's row, column or 3x3 box |
| Sudoku.SafeIff | sudoku/sudoku.py:77-89 | safety means the cell and every peer (same row, column or box) differ from the digit |
| Sudoku.BoxStartIs | sudoku/sudoku.py:85 | the box start row - row % 3 is the row rounded down to a multiple of three |
| Sudoku.Set | sudoku/sudoku.py:97-99 | writing a cell changes that cell only |
| Sudoku.SafeKeepsConsistent | sudoku/sudoku.py:96-97 | writing a safe digit keeps the board free of repeated digits among peers |
| Sudoku.Solve | sudoku/sudoku.py:91-101 | success leaves a solved board that extends the original; failure restores the board and means the board has no consistent completion |
| Sudoku.TryCell | sudoku/sudoku.py:94-100 | trying digits 1 to 9 in the first empty cell either solves the board or restores it and shows no completion exists |
| Sudoku.SolvedStep | sudoku/sudoku.py:96-98 | a solution of the board with one safe digit written is a solution of the board before |
| Sudoku.UnsafeExcluded | sudoku/sudoku.py:96 | an unsafe digit cannot appear in that cell of any completion |
| Sudoku.DeadEndExcluded | sudoku/sudoku.py:98-99 | a digit whose board has no completion cannot appear in that cell of any completion |
| Sudoku.AllExcluded | sudoku/sudoku.py:100 | when all nine digits are excluded from an empty cell the board has no completion |
| Sudoku.ZerosSet | sudoku/sudoku.py:97 | filling an empty cell lowers the number of empty cells by one, so the recursion ends |
| Sudoku.NoZeros | sudoku/sudoku.py:92-101 | a board with an empty cell has a positive number of empty cells |
| Sudoku.Generator.FillBox | sudoku/sudoku.py:68-75 | the 3x3 box at the given corner receives the shuffled digits popped from the end, every other cell unchanged |
| Sudoku.Generator.FillDiagonal | sudoku/sudoku.py:64-66 | an empty grid becomes the board with the three diagonal boxes filled from the three shuffles |
| Sudoku.DiagonalConsistent | sudoku/sudoku.py:64-75 | filling the diagonal boxes with permutations of 1 to 9 repeats no digit among peers and leaves exactly the off-diagonal boxes empty |
| Sudoku.Generator.Candidates | sudoku/sudoku.py:106-107 | the candidates are the filled cells, in the shuffled order |
| Sudoku.NonEmpty | sudoku/sudoku.py:106 | every candidate is a filled cell on the board |
| Sudoku.Generator.RemoveDigits | sudoku/sudoku.py:103-113 | the first 40 candidates (or all, when fewer) are blanked, and a consistent board stays consistent |
| Sudoku.Generator.BlankFirst | sudoku/sudoku.py:109-113 | the loop blanks exactly the first count cells of the list |
| Sudoku.BlankAt | sudoku/sudoku.py:110-113 | after blanking, a listed cell is empty and any other cell is unchanged |
| Sudoku.BlankConsistent | sudoku/sudoku.py:103-113 | blanking cells keeps a board consistent |
| Sudoku.Generator.constructor | sudoku/sudoku.py:58-62 | the generator's grid is consistent: the diagonal fill, the solver and the removal never repeat a digit among peers |
| Sudoku.Play.constructor | sudoku/sudoku.py:125-143 | the dealt board is the solution with the first 45 shuffled cells blanked, and play starts on it at cell (0, 0) |
| Sudoku.Givens | sudoku/sudoku.py:142 | a cell is a given exactly when it is filled in the dealt board |
| Sudoku.Play.KeyPressAsWritten | sudoku/sudoku.py:161-181 | the selection moves by the arrow key with wrap-around and the selected cell, unless a given, receives the key's value with 0 for every non-digit key |
| Sudoku.EditAsWritten | sudoku/sudoku.py:168-181 | the edit keeps the board a 9x9 grid |
| Sudoku.ArrowErases | sudoku/sudoku.py:163-181 | as written, an arrow key on a filled non-given cell erases it |
| Sudoku.Play.KeyPress | sudoku/sudoku.py:161-181 | the selection moves by the arrow key with wrap-around and only a digit, backspace or delete key edits the selected non-given cell |
| Sudoku.Edit | sudoku/sudoku.py:168-181 | the corrected edit keeps the board a 9x9 grid |
| Sudoku.EditOnlyTyped | sudoku/sudoku.py:168-181 | the corrected edit leaves the board alone for keys without a value, never touches a given or another cell, and writes a digit key's value |
| Sudoku.ClickPastLastColumn | sudoku/sudoku.py:7-8 | as written, a click at x = 599 selects column 9, outside the grid |
| Sudoku.Play.Click | sudoku/sudoku.py:154-157 | a click leaves the board and selects as Select says |
| Sudoku.Select | sudoku/sudoku.py:154-157 | the corrected selection always names a cell of the grid, and changes only for a click on the grid |
| Sudoku.ConflictIff | sudoku/sudoku.py:201-210 | a cell is shown in conflict iff it holds a player's digit that some peer also holds |
| Sudoku.CountTwice | sudoku/sudoku.py:205 | a value at a position occurs more than once iff it occurs at another position too |
| Sudoku.CountZero | sudoku/sudoku.py:205 | a value occurs zero times iff no position holds it |
| Sudoku.ColumnRepeat | sudoku/sudoku.py:206 | a cell's value repeats in its column iff another row of the column holds it |
| Sudoku.BoxRepeat | sudoku/sudoku.py:207-209 | a cell's value repeats in its box iff another cell of the box holds it |
| Sudoku.BoxIndex | sudoku/sudoku.py:207-208 | the box's m-th cell is the cell in the same box at offset m |
| Minesweeper.Game.constructor | minesweeper/minesweeper.py:59-67 | a new game has no mines laid yet, nothing visible or flagged, waits for the first click and is neither over nor won |
| Minesweeper.Game.GenerateMines | minesweeper/minesweeper.py:69-85 | mines are laid only at eligible cells, at most 40 of them, every eligible draw is mined when fewer than 40 are laid, and every other cell holds its count of neighbouring mines; the rest of the game is untouched |
| Minesweeper.Game.PlaceMines | minesweeper/minesweeper.py:70-75 | the drawing loop lays at most 40 mines, each at an eligible cell, and lays every eligible draw when it stops short of 40 |
| Minesweeper.LaidStep | minesweeper/minesweeper.py:73-75 | laying a mine at a fresh eligible cell adds exactly that cell to the mines laid |
| Minesweeper.MineSetIs | minesweeper/minesweeper.py:73-75 | the set of mined cells is exactly the set the loop laid |
| Minesweeper.NearZero | minesweeper/minesweeper.py:73 | with every mine more than one row and one column away, a cell has no neighbouring mine, so the first click always opens a 0 |
| Minesweeper.Game.NumberCells | minesweeper/minesweeper.py:77-85 | the mines stay where they are and every other cell receives its count of neighbouring mines |
| Minesweeper.Game.CountNear | minesweeper/minesweeper.py:80-84 | the count is the number of mines among the cell's neighbours |
| Minesweeper.NearStep | minesweeper/minesweeper.py:81-84 | each offset of the 3x3 scan adds one exactly when it names a mined cell on the field |
| Minesweeper.NearBound | minesweeper/minesweeper.py:80-85 | a cell that is not a mine has at most eight neighbouring mines |
| Minesweeper.NearPositive | minesweeper/minesweeper.py:80-85 | a cell with a mined neighbour has a positive count |
| Minesweeper.NearUpToSame | minesweeper/minesweeper.py:80-85 | the neighbour count reads only where the mines are |
| Minesweeper.ZeroClear | minesweeper/minesweeper.py:93-97 | the neighbours of a 0 are free of mines |
| Minesweeper.ZeroNeighbourSafe | minesweeper/minesweeper.py:93-97 | a cell next to an opened 0 is not a mine |
| Minesweeper.Game.FloodFill | minesweeper/minesweeper.py:87-97 | only hidden, unflagged cells open; the start opens unless flagged; every other opened cell borders a 0 that this same call opened; and every opened 0 has all its neighbours open or flagged |
| Minesweeper.Game.FillNeighbour | minesweeper/minesweeper.py:94-97 | one recursive step opens the neighbour (or finds it open or flagged) and keeps the flood invariant |
| Minesweeper.Game.FillAround | minesweeper/minesweeper.py:94-97 | the two offset loops from a newly opened 0 leave every neighbour visible or flagged and keep the flood invariant: each newly opened cell borders a 0 this fill opened, and each newly opened 0 has all neighbours open or flagged |
| Minesweeper.Game.FillOffset | minesweeper/minesweeper.py:94-97 | one offset of the loops: the neighbour it names (skipping the cell itself) ends visible or flagged, so one more offset is done, and the flood invariant is kept |
| Minesweeper.DoneNext | minesweeper/minesweeper.py:94-97 | after the next neighbour is handled, the neighbours handled so far are all open or flagged |
| Minesweeper.Game.RevealMines | minesweeper/minesweeper.py:110-112 | every mine becomes visible and nothing else changes |
| Minesweeper.ShowMines | minesweeper/minesweeper.py:110-112 | a cell is visible afterwards iff it was visible or is a mine |
| Minesweeper.Game.CheckWin | minesweeper/minesweeper.py:151-157 | when every safe cell is visible the game is over and won; otherwise nothing changes |
| Minesweeper.Game.Reveal | minesweeper/minesweeper.py:99-115 | nothing happens when the game is over or the cell flagged; the first click lays the mines around a 0; a mine ends the game lost with all mines shown; otherwise the cell opens and the game is over and won exactly when every safe cell is visible |
| Minesweeper.Game.ToggleFlag | minesweeper/minesweeper.py:117-119 | the flag of a hidden cell flips while the game runs; nothing else changes |
| Minesweeper.Toggled | minesweeper/minesweeper.py:117-119 | toggling keeps the flag grid's shape |
| Minesweeper.ToggleTwice | minesweeper/minesweeper.py:117-119 | toggling twice restores the flags, and a visible cell's flag never changes |
| Minesweeper.FlipTwice | minesweeper/minesweeper.py:119 | flipping a cell twice restores the grid |
| Minesweeper.Game.ScanNeighbours | minesweeper/minesweeper.py:127-135 | the neighbour list and the flag count are those of the 3x3 scan around the cell |
| Minesweeper.Game.ScanRow | minesweeper/minesweeper.py:130-135 | one row of the scan extends the neighbour list and the flag count by that row |
| Minesweeper.Neighbours | minesweeper/minesweeper.py:127-135 | every listed neighbour is on the field |
| Minesweeper.ScanAround | minesweeper/minesweeper.py:127-135 | the neighbour list holds exactly the on-field cells adjacent to the cell |
| Minesweeper.ScanIs | minesweeper/minesweeper.py:129-135 | the first part of the scan holds exactly the adjacent cells scanned so far |
| Minesweeper.ScanStep | minesweeper/minesweeper.py:132-135 | each scanned offset adds its cell and its flag, when on the field |
| Minesweeper.Game.HiddenOf | minesweeper/minesweeper.py:146-149 | the highlight is the neighbours that are neither visible nor flagged, in order |
| Minesweeper.ClosedIs | minesweeper/minesweeper.py:147-149 | a cell is highlighted iff it is a listed neighbour, hidden and unflagged |
| Minesweeper.ClosedAppend | minesweeper/minesweeper.py:147-149 | each neighbour adds itself to the highlight exactly when hidden and unflagged |
| Minesweeper.Game.OpenAll | minesweeper/minesweeper.py:140-142 | every hidden unflagged neighbour is revealed unless the game ended, and with no mine among them the game is won exactly when it is over |
| Minesweeper.Game.Chord | minesweeper/minesweeper.py:121-149 | nothing happens on a hidden cell, a 0 or a finished game; when the flags match the number, every hidden unflagged neighbour opens (or the game ends) and the highlight is cleared; otherwise the highlight lists the hidden unflagged neighbours |
| Minesweeper.ChordSafe | minesweeper/minesweeper.py:138-142 | when every flag around a number marks a mine and the flags match the number, no unflagged neighbour is a mine, so the chord cannot lose |
| Minesweeper.MinesIsNear | minesweeper/minesweeper.py:80-84 | the mines counted by the chord's scan are the cell's neighbour count |
| Minesweeper.FlagsBelowMines | minesweeper/minesweeper.py:129-135 | with every flag on a mine, the flags scanned so far are at most the mines scanned so far |
| Minesweeper.MissedMine | minesweeper/minesweeper.py:129-135 | an unflagged mine among the scanned neighbours makes the flags fall short of the mines |
| Minesweeper.Put | minesweeper/minesweeper.py:74 | writing a cell changes that cell only |
| Tetris.ScoreFor | tetris/tetris.py:47 | clearing one to four lines earns a positive score and any other count earns nothing |
| Tetris.ShapeFacts | tetris/tetris.py:35-44 | every one of the seven shapes is a rectangle of at most 2 rows and 4 columns holding a block |
| Tetris.MinWidth | tetris/tetris.py:89 | zip stops at the shortest row: the width is at most every row's length and equals one of them |
| Tetris.RotatedRect | tetris/tetris.py:87-89 | rotating a rectangle swaps its dimensions and sends cell (i, k) of the original's reversed rows to (k, i): a quarter turn clockwise |
| Tetris.RotateTwice | tetris/tetris.py:87-89 | two rotations make a half turn |
| Tetris.HalfTurnTwice | tetris/tetris.py:87-89 | two half turns restore the shape |
| Tetris.RotateFour | tetris/tetris.py:87-89 | four rotations restore the shape |
| Tetris.RotatedBlock | tetris/tetris.py:87-89 | a rotated shape still holds a block |
| Tetris.Piece.constructor | tetris/tetris.py:78-85 | a new piece has its shape and colour from the index, centred on the top row |
| Tetris.Piece.Copy | tetris/tetris.py:196 | a copy has the same shape, colour and position |
| Tetris.Piece.Rotate | tetris/tetris.py:87-89 | the piece's shape becomes its rotation |
| Tetris.EmptyBoard | tetris/tetris.py:93 | the empty well is a 20 by 10 board |
| Tetris.SetCell | tetris/tetris.py:134 | writing a cell changes that cell only |
| Tetris.Game.constructor | tetris/tetris.py:92-102 | a new game has an empty well, the two given pieces, score 0, no lines, level 1, the timer at the given clock, and is not over |
| Tetris.SpawnFits | tetris/tetris.py:84-85 | every new piece fits at its spawn position in an empty well |
| Tetris.DropSpeed | tetris/tetris.py:108-110 | the drop interval is one of the listed speeds, 80 ms from level 11 on |
| Tetris.DropSpeedFaster | tetris/tetris.py:108-110 | a higher level never drops more slowly |
| Tetris.Game.ValidMove | tetris/tetris.py:112-125 | the shifted piece fits iff each block is inside the walls, above the floor, and on an empty cell unless above the well |
| Tetris.Game.Move | tetris/tetris.py:173-178 | the piece moves by the offset exactly when the shifted piece fits, and otherwise stays |
| Tetris.Game.RotatePiece | tetris/tetris.py:165-171 | the piece takes its rotated shape when that fits, and otherwise keeps its shape |
| Tetris.Game.LockCells | tetris/tetris.py:128-134 | the well receives the piece's colour at each of its blocks on the board |
| Tetris.Locked | tetris/tetris.py:128-134 | locking keeps the well a 20 by 10 board |
| Tetris.LockedOccupied | tetris/tetris.py:128-134 | once locked, the piece no longer fits where it was |
| Tetris.Game.ShiftDown | tetris/tetris.py:150-152 | rows above the cleared row move down one and an empty row enters at the top |
| Tetris.Game.ClearLinesAsWritten | tetris/tetris.py:144-163 | as written, every full row is removed but score, lines and level never change |
| Tetris.LineClearUnscored | tetris/tetris.py:144-163 | a well with one full bottom row should score 100 at level 1, which the as-written clearing never awards |
| Tetris.Game.ClearRows | tetris/tetris.py:145-158 | removing full rows leaves the cleared well and counts the rows removed |
| Tetris.Game.ClearLines | tetris/tetris.py:144-163 | the well becomes the cleared well, lines rise by the full rows, the score by their points times the level, and the level follows the lines |
| Tetris.KeptRows | tetris/tetris.py:146-152 | the kept rows plus the full rows account for every row, and no kept row is full |
| Tetris.ClearedBoard | tetris/tetris.py:144-158 | the cleared well is a 20 by 10 board with no full row |
| Tetris.ClearTwice | tetris/tetris.py:144-158 | clearing an already cleared well changes nothing |
| Tetris.NoFullRow | tetris/tetris.py:146-147 | a well with no full row is left as it is |
| Tetris.ShiftClears | tetris/tetris.py:150-157 | shifting out one full row leaves the same cleared well with one full row fewer |
| Tetris.ShiftKept | tetris/tetris.py:150-152 | shifting out a full row keeps the other rows in order below a new empty row |
| Tetris.ShiftCount | tetris/tetris.py:150-152 | shifting out a full row lowers the number of full rows by one |
| Tetris.KeptAppend | tetris/tetris.py:146-147 | kept rows and full rows add up over two parts of the well |
| Tetris.EmptiesAre | tetris/tetris.py:152 | the refill is n empty rows |
| Tetris.LandedUnique | tetris/tetris.py:180-182 | a dropping piece comes to rest at one row only |
| Tetris.Game.GhostPiece | tetris/tetris.py:195-200 | the ghost is a fresh copy of the piece pushed down to the row where it lands |
| Tetris.Game.DropToFloor | tetris/tetris.py:181-182 | the piece moves straight down to the row where it lands |
| Tetris.Game.SpawnNext | tetris/tetris.py:137-142 | the next piece becomes current, a fresh piece of the given index becomes next, and the game is over iff the new piece does not fit |
| Tetris.Game.LockPiece | tetris/tetris.py:127-142 | the piece is locked, full rows cleared, the next piece spawned, and the game is over iff it does not fit; the lock goes through the corrected clear_lines (see Findings), so the full rows are also counted and scored at the old level, which the source's lock does not do |
| Tetris.Game.HardDrop | tetris/tetris.py:180-184 | the piece is locked at the row where it lands, the rows cleared (and, through the corrected clear_lines, counted and scored), the level follows the lines, the next piece spawned, the game over iff it does not fit, and the timer reset to the clock |
| Tetris.Game.Fall | tetris/tetris.py:191-192 | the piece moves down one row when it fits there, with score, lines, level and game over unchanged; otherwise it is locked as LockPiece states, with the next piece spawned |
| Tetris.Game.Update | tetris/tetris.py:186-193 | nothing happens when the game is over or the drop interval has not passed; otherwise the piece falls (score, lines, level and game over unchanged) or locks as LockPiece states, and the timer takes the clock |
| Snake.FirstFreeSpec | snake/snake.py:79-83 | the food is found iff some draw misses the body; it is then the first such draw, inside the grid and off the body |
| Snake.SpawnFood | snake/snake.py:79-83 | the spawned food is the first draw off the body, inside the grid |
| Snake.Game.constructor | snake/snake.py:66-77 | a new game holds the three-cell snake heading right, food off the snake, score 0, not over or paused, and the high score read from the file |
| Snake.Game.Reset | snake/snake.py:70-77 | a reset restores the starting snake, direction, fresh food and score 0, keeping the high score |
| Snake.Game.Die | snake/snake.py:130-132 | the game ends and the high score rises to the score when the score beats it |
| Snake.Heading | snake/snake.py:102-104 | the buffered turn is taken unless it reverses the snake, so the heading stays a unit step and never reverses |
| Snake.MovedDistinct | snake/snake.py:120-128 | moving onto a free cell keeps the body free of repeats, grows it by one when eating and otherwise keeps its length |
| Snake.Game.Advance | snake/snake.py:120-128 | the new head is inserted, the tail dropped unless the food was eaten, the score counts the food and new food appears off the grown snake |
| Snake.Game.Update | snake/snake.py:99-128 | a paused or finished game is unchanged; otherwise the heading turns unless reversing, a wall or body hit ends the game with the high score updated, and any other step moves the snake |
| Snake.Game.Press | snake/snake.py:162-175 | after a game over only space restarts; while playing an arrow buffers its direction unless it reverses the current heading, and p toggles the pause |
| Blackjack.Value | blackjack/blackjack.py:130-132 | a card is worth 2 to 11: 11 exactly for an ace and 10 exactly for a ten or a face card |
| Blackjack.DeckComplete | blackjack/blackjack.py:136 | the fresh deck holds 52 distinct cards, one of each rank and suit |
| Blackjack.RankIndex | blackjack/blackjack.py:19 | every rank has its position in the rank list |
| Blackjack.SuitIndex | blackjack/blackjack.py:18 | every suit has its position in the suit list |
| Blackjack.RankAtInjective | blackjack/blackjack.py:19 | distinct positions name distinct ranks |
| Blackjack.SuitAtInjective | blackjack/blackjack.py:18 | distinct positions name distinct suits |
| Blackjack.Reductions | blackjack/blackjack.py:145-147 | aces are counted as 1 one at a time, at most once each, only while the total is over 21, stopping once it is not |
| Blackjack.ReductionsUnique | blackjack/blackjack.py:145-147 | the number of aces lowered is the only one with those stopping properties |
| Blackjack.CalculateScore | blackjack/blackjack.py:142-148 | the loop's score is the card total with just enough aces lowered from 11 to 1 to reach 21 or below, or all of them |
| Blackjack.ScoreBounds | blackjack/blackjack.py:142-148 | a hand over 21 has every ace counted as 1, and a hand scores at least one per card |
| Blackjack.TwoCards | blackjack/blackjack.py:224-229 | two cards never score more than 21, so a fresh deal is never a bust |
| Blackjack.Settle | blackjack/blackjack.py:282-290 | the dealer busts iff over 21; otherwise the higher score wins and equal scores push |
| Blackjack.Table.constructor | blackjack/blackjack.py:193-199 | play starts betting with the shuffled deck, empty hands and no outcome |
| Blackjack.ShuffledValid | blackjack/blackjack.py:136-137 | a shuffled deck has 52 cards of valid ranks |
| Blackjack.Table.Draw | blackjack/blackjack.py:139-140 | the drawn card is the deck's last and the deck loses it |
| Blackjack.Table.DealCards | blackjack/blackjack.py:223-225 | a new shuffled deck deals its last two cards to the player and the next two to the dealer, keeping every card accounted for |
| Blackjack.Table.Reveal | blackjack/blackjack.py:226-237 | a player blackjack ends the round with the hole card shown, a push against a dealer 21 and a win otherwise; any other hand is played with the hole card hidden |
| Blackjack.Table.Deal | blackjack/blackjack.py:221-237 | the deal hands out the new deck's top four cards as the source orders them and settles a blackjack at once |
| Blackjack.DrawFour | blackjack/blackjack.py:224-225 | the four dealt cards and the rest of the deck are exactly the shuffled deck |
| Blackjack.DrawOne | blackjack/blackjack.py:209 | drawing into a hand keeps deck and hand together unchanged |
| Blackjack.Table.PlayerTakes | blackjack/blackjack.py:209 | the player's hand gains the deck's last card, no card lost |
| Blackjack.Table.DealerTakes | blackjack/blackjack.py:279 | the dealer's hand gains the deck's last card, no card lost |
| Blackjack.Table.Hit | blackjack/blackjack.py:207-212 | the player gains the deck's last card; over 21 the round ends as a bust, otherwise play goes on |
| Blackjack.Table.Stand | blackjack/blackjack.py:215-218 | standing passes to the dealer's turn and shows the hole card |
| Blackjack.Table.DealerStep | blackjack/blackjack.py:273-291 | below 17 the dealer draws and keeps the turn; otherwise the round ends with the outcome Settle gives for the two scores |
| Blackjack.Table.Act | blackjack/blackjack.py:245-271 | deal works only between rounds, hit and stand only while playing, and any other click or key changes nothing |
| Risk.SetupMap | risk/risk.py:164-170 | each territory's neighbour list is built from the links in order, both ends of a link listing each other |
| Risk.Connect | risk/risk.py:167-170 | one link appends each end to the other's list, when both are on the map |
| Risk.NeighboursStep | risk/risk.py:167-170 | the lists after k+1 links are those after k links plus the (k+1)-th link's ends |
| Risk.NeighboursJoin | risk/risk.py:167-170 | v is listed for u iff some link on the map joins u and v in either order |
| Risk.NeighboursSymmetric | risk/risk.py:169-170 | adjacency is symmetric and only joins territories of the map |
| Risk.SetupMapGraph | risk/risk.py:164-170 | the built map is a symmetric graph over its territories |
| Risk.Distribute | risk/risk.py:172-177 | the i-th territory of the shuffled order goes to player i mod 2 with 3 armies |
| Risk.RiskGame.constructor | risk/risk.py:149-162 | a new game builds the map, deals the territories alternately with 3 armies each and starts the human's turn: draft phase, nothing selected, a draft pool of Bonus of the human's territories with its message and an AI timer of 30, or GAME OVER when the human holds nothing |
| Risk.Owned | risk/risk.py:185 | a player owns no territory iff every territory has another owner |
| Risk.OwnedSplit | risk/risk.py:176 | with two players, their territory counts add up to the map's size |
| Risk.Bonus | risk/risk.py:190 | the draft bonus is the owned count divided by three, but at least 3 |
| Risk.RiskGame.StartTurn | risk/risk.py:179-193 | the turn starts in the draft with no selection; a player with no territory sees game over, otherwise gets the bonus and a 30-frame AI delay |
| Risk.RiskGame.NextPhase | risk/risk.py:347-362 | draft moves to attack only with an empty pool, attack moves to fortify clearing the selection, and fortify passes the turn and starts it |
| Risk.RiskGame.DraftClick | risk/risk.py:267-272 | clicking an own territory with armies left in the pool moves one army from the pool onto it; otherwise nothing changes |
| Risk.RiskGame.AttackClick | risk/risk.py:274-285 | the first click selects an own territory with more than one army, clicking it again cancels, and any other click changes nothing unless it is on an enemy neighbour; that click makes it the target, and then a selected territory with one army changes nothing else, while otherwise the battle is fought: owners and armies are the battle's, the message is the roll, and the selection and target are cleared on a conquest and kept otherwise |
| Risk.RiskGame.FortifyClick | risk/risk.py:287-309 | selecting an own territory with more than one army offers exactly the other territories connected through own territory; a click on an offered one moves one army; armies in total never change |
| Risk.RiskGame.MoveOne | risk/risk.py:306-308 | one army moves from the source to the destination and the total is unchanged |
| Risk.RiskGame.HandleClick | risk/risk.py:256-309 | clicks do nothing on the AI's turn or off the territories, and otherwise act by the current phase without changing it |
| Risk.ConnectedTerritories | risk/risk.py:239-254 | the search returns, without repeats, exactly the territories other than the start reachable from it through territories of the start's owner |
| Risk.Enqueue | risk/risk.py:250-253 | one step marks and queues exactly the unvisited neighbours of the start's owner |
| Risk.RegionStart | risk/risk.py:242-243 | the start belongs to its own region |
| Risk.RegionStep | risk/risk.py:250-253 | a same-owner neighbour of a region member is in the region |
| Risk.RegionMembers | risk/risk.py:251 | every region member is on the map and held by the start's owner |
| Risk.ClosedHasRegion | risk/risk.py:245-253 | any set holding the start and closed under same-owner neighbours contains the whole region |
| Risk.WalkInside | risk/risk.py:245-253 | a same-owner walk from inside a closed set stays inside it |
| Risk.AttackDice | risk/risk.py:317 | the attacker rolls three dice, or one fewer than its armies when that is less |
| Risk.DefenceDice | risk/risk.py:318 | the defender rolls two dice, or its armies when that is less |
| Risk.SortDownSorted | risk/risk.py:320-321 | sorting a roll puts the same dice in descending order |
| Risk.InsertDownPerm | risk/risk.py:320-321 | inserting a die keeps every die of the roll |
| Risk.InsertDownSorted | risk/risk.py:320-321 | inserting into a descending roll keeps it descending |
| Risk.Rolls | risk/risk.py:317-321 | the attacker rolls one to three dice, fewer than its armies, each side's roll sorted descending from its own draws |
| Risk.Compare | risk/risk.py:325-331 | each compared pair costs one army: the defender's when the attacker's die is higher, the attacker's on a tie or lower |
| Risk.AttackerWinsAll | risk/risk.py:329-331 | the defender loses every compared pair iff every attacking die beats its defending die |
| Risk.Roll | risk/risk.py:317-331 | the rolls and the losses are those the dice give, and the losses add up to the pairs compared |
| Risk.Conquest | risk/risk.py:336-340 | a defender wiped out lost every compared pair, and the attacker keeps at least one army after moving in |
| Risk.BattleKeeps | risk/risk.py:333-343 | a battle keeps every owner and army count valid, changes only the two territories, and on conquest hands the defender's territory to the attacker with the dice count moved in |
| Risk.BattleTotal | risk/risk.py:333-340 | a battle removes exactly as many armies as pairs were compared |
| Risk.BattleArmies | risk/risk.py:333-340 | only the two fighting territories change their armies, and together they lose the pairs compared |
| Risk.TotalUpdate | risk/risk.py:269-270 | changing one territory's armies changes the total by the difference |
| Risk.RiskGame.Casualties | risk/risk.py:333-343 | owners and armies become the battle's result, and a conquest clears the selection |
| Risk.RiskGame.ResolveBattle | risk/risk.py:311-345 | an attacker with one army does nothing; otherwise the battle is fought with the dice given and its result applied |
| Risk.RiskGame.AiDraft | risk/risk.py:202-209 | the AI places one army on its chosen territory while it owns any and has armies left, and moves to attack when the pool is empty |
| Risk.RiskGame.AiStrike | risk/risk.py:223-230 | the AI fights the chosen attack with the battle's owners, armies and roll message; the selection is cleared on a conquest or when the attacker is left with two armies or fewer, and kept on the pair otherwise |
| Risk.RiskGame.Update | risk/risk.py:195-237 | nothing happens on the human's turn; the AI waits out its timer, then drafts, attacks with a largest-difference candidate or moves on when none, and passes fortify |

## Left out

- Rendering, fonts, sprites, sound and the pygame event loops: they draw and read input and hold no rule. Key and click handling is modelled only where it carries a rule (sudoku editing, snake keys, queens clicks, risk clicks, blackjack buttons).
- Randomness: shuffles, dice, mine positions, food cells, the next tetris piece, the sudoku box order and the queens column order are input sequences or indices (`pick`, `draws`, `dice`, `order`, `shuffled`, `ds`, `nextIdx`). The model proves what holds for every such input; it does not model the distribution.
- Clock reads (`pygame.time.get_ticks`, frame counters, AI delays): the current time is a parameter `now` or a frame count, and the AI delays are not modelled.
- asteroids, spaceinvaders, lemmings and BrickBreaker are not part of this model: they are float physics and frame animation, with no discrete rules core.
- Floating-point values: ±inf sentinels are the extended values of `Search.Value`; the checkers king weight 0.5 is kept doubled, so `Checkers.Evaluate` gives twice the source's score, and the go komi 6.5 is kept by recording white's score doubled (`Go.GoBoard.CalculateScore`).
- Go `AI.get_move` (go/go.py:244-304) is not modelled: it weighs moves with floats, and its atari branch unpacks nine-element rows into two names, which raises.
- Queens region growth and `enforce_contiguity` (queens/queens.py:71-178) are not modelled: they are randomized, their termination is not evident, and the regions are a parameter of `Queens.Game.constructor`. The double-click timing of the queens click handler is a clock read and is left out.
- Othello.AI.GetBestMove: requires a depth above zero; the source calls it with depth 3; with depth 0 the children are searched from depth -1, which never reaches the depth-0 cut-off, so a position where neither side can move recurses without end.
- Connect four, othello and chess start `get_best_move` from a random first guess; the guess is the `pick` parameter. In connect four and othello the first strictly better move always replaces it.
- Chess.GetBestMove: the first move of strictly minimal value is ensured only when every child value found with the window (-10000, 10000) lies inside that window. Nothing here bounds the material sum of a reachable board below 10000 (`ChessRules.EvaluateBounded` gives only ±57600). When a child value falls outside the window, the model promises only that the result is one of black's moves.
- Queens.Solve: tries the columns in one order `order` for every row and every call, where the source reshuffles the columns at each call of `solve` (queens/queens.py:59-60). Its contract (success gives a full placement, failure means no placement extends the rows above) holds for any order, so which solution a run finds is not modelled.
- Checkers: the `Game` wrapper (selection, `_move`, turn change and the UI reset) is not modelled beyond the board, the move generator and the search it drives.
- Backgammon: the iteration order of `set(dice)` is taken as ascending die faces, as CPython iterates a set of small integers; the unused `start` parameter of `is_valid_move` is dropped.
- Stratego: `setup_pieces` places the pool at random, so only the pool is modelled (`Stratego.BuildPool`) and `Stratego.Board` has no constructor; the `moved` flags and the countdown of `combat_timer` serve only the drawing.
- Sudoku: the restart button, which calls `main()` again, is not modelled; a new deal is a new `Sudoku.Play`.
- Minesweeper.Game.FloodFill: the contract says every cell the call opens, other than the start, borders a 0 that the same call opened. It does not say that a chain of such 0s leads back to the start, so a closed ring of newly opened 0s is not ruled out by the contract.
- Sudoku.Play.Click: a click with x or y in 594..599 keeps the old selection, through the corrected `Sudoku.Select`. The source (sudoku/sudoku.py:154-157) selects row or column 9 there, and its next key press then indexes past the row and raises IndexError; `Sudoku.ClickPastLastColumn` exhibits that selection, and `Play.Valid()` keeps the selection inside the grid, so the source's crashing state is not reachable in the model.
- Sudoku.Generator.constructor: the contract states only that the grid it leaves is consistent (no repeat in any row, column or box). It does not state that the solver always completes the filled diagonal to a full grid, nor that the puzzle has any digits left after the removal; that a filled diagonal always extends to a solution is not proved. When the search fails, the model keeps the partial grid, as the source would.
- Minesweeper.Game.GenerateMines: the mine draws are a finite input sequence, so when they run out fewer than 40 mines are laid; the source draws until 40 are placed. The placement test keeps both the row and the column distance above one, as the source writes it.
- Tetris: the +1 score for a soft drop lives in the key handler of `main` and is not modelled.
- Tetris.Game.LockPiece: locks through the corrected `ClearLines` of the Findings table, so a lock that completes rows adds them to the line count and scores them; the source's `lock_piece` calls `clear_lines` as written, which leaves score, lines and level unchanged (`Tetris.Game.ClearLinesAsWritten`).
- Tetris.Game.HardDrop: locks through `LockPiece`, so it scores the completed rows as the corrected `clear_lines` does, where the source does not.
- Tetris.Game.Fall: locks through `LockPiece`, so it scores the completed rows as the corrected `clear_lines` does, where the source does not.
- Tetris.Game.Update: falls through `Fall`, so a lock scores the completed rows as the corrected `clear_lines` does, where the source does not.
- Snake.SpawnFood and Snake.Game.Update: require that the food draws reach a free cell; when none comes, the source loops forever. The high-score file I/O is left out (the loaded high score is a constructor parameter `best`), as is the dash speed of the frame loop.
- Blackjack.Table.Hit and Blackjack.Table.DealerStep: require a non-empty deck; popping an empty deck raises in the source. The `hidden` flag of a card is the single flag `holeHidden`, since only the dealer's first card is ever hidden. The 600 ms dealer delay is a clock read and is left out.
- Risk: the `Territory` objects become the `owner` and `armies` sequences indexed by territory, so aliasing is not modelled. The concrete 40-territory map is not included: `Risk.SetupMap` works for any list of links. `initial_distribution` takes its shuffled order as input, `handle_click`'s pixel hit test becomes an optional territory, and the banner strings are an enumeration.
- Risk.RiskGame.Update: the AI's choice among attacks with the same army difference is an input constrained to the best candidates; the source's order among equal candidates is not modelled.

## Findings

| source | as written | input that shows it | evidently intended | confidence | as-written member | corrected member |
|---|---|---|---|---|---|---|
| chess/chess.py:154-196, 216-223 | `get_valid_moves` with `check_check` tries each king target with `simulate_move`, which calls `move_piece_internal` (clearing the castling rights of a moved king) and restores the board and en passant target but not the rights; the castling test then reads the cleared rights | the starting position after the knight and bishop between the white king and the king-side rook have moved away: (7, 5) is a king target, its trial move clears both white rights, and (7, 6) is not offered | a trial move leaves the castling rights as they were, so an unmoved king with an empty path, not in check, may castle | not executed | ChessRules.CastlingNeverOffered | ChessRules.ValidMovesRestoring (with ChessRules.CastlingOfferedWhenRestored) |
| chess/chess.py:262-263 | a side with no move records 'black' when in check, whatever its colour, and the second line only corrects black's stalemate to a draw | black to move, checkmated: the recorded winner is 'black' | the mated side loses: a mated black records 'white' | not executed | ChessRules.BlackMatedRecordedAsBlack | ChessRules.StuckWinnerIntended (with ChessRules.StuckWinnerDiffers) |
| tetris/tetris.py:144-163 | at the first full row the scan shifts the rows down, calls itself again and returns, so the scoring after the scan runs only when `lines_to_clear` is 0 | a well whose bottom row is full and the rest empty: the row is cleared but score, lines and level stay | count every cleared row, then add the points for that many lines times the level and recompute the level | not executed | Tetris.Game.ClearLinesAsWritten (with Tetris.LineClearUnscored) | Tetris.Game.ClearLines |
| sudoku/sudoku.py:161-181 | `val` starts at 0 and the guard `val is not None` always holds, so every key, arrows included, writes its value into the selected cell | a typed 5 in a cell not dealt, then the up arrow: the cell becomes 0 | only digit keys and backspace/delete edit the cell; arrows only move the selection | not executed | Sudoku.Play.KeyPressAsWritten (with Sudoku.ArrowErases) | Sudoku.Play.KeyPress (with Sudoku.EditOnlyTyped) |
| sudoku/sudoku.py:7-8, 154-157 | the cell size is 600 // 9 = 66, so a click at x in 594..599 selects column 9, which the next key press reads out of range | a click at (599, 0) selects (0, 9) | a click selects only a cell inside the 9×9 grid | not executed | Sudoku.ClickPastLastColumn | Sudoku.Select |

The chess board (`Chess.Board`) and the chess search instance keep the as-written generation and outcome, since the behaviour they model is the program's; the corrected definitions stand beside them with their properties proved.
