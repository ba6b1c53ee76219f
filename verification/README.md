# Checkers engine model

A Dafny model of the game-state engine of a two-player checkers program
(`main.py`): a human plays red, the computer plays grey. It covers

- the board: an 8x8 grid of cells that are empty or hold a piece, plus four
  counters (pieces left and kings crowned, per side); setup (`create_board`),
  `get_piece`, `give_pieces`, `move`, `remove_piece`, `is_winner` and
  `evaluation_function`;
- move generation: `validity_move` and the two scans `go_left` / `go_right`,
  including the recursive continuation that finds double jumps, with Python's
  insertion-ordered `dict` and `dict.update` modelled as an association list;
- successors: `check_move` and `all_moves`, in the engine's enumeration order
  (pieces row by row, then dictionary order);
- the computer player: `algo_prune_alphabeta`, written generically over the
  rules of a game and instantiated with the engine's own rules, and compared
  against plain minimax;
- the turn controller `Game`: `_init`/`reset`, `select`, `_move`,
  `changing_chances` and `changing_move`.

Boards are values, so the engine's `deepcopy` before each hypothetical move is
implicit. The board invariant `Boards.Valid` has five parts:

- the grid is 8 by 8 (`Boards.Shaped`);
- every piece records its own square;
- pieces stand only on squares with odd row + col;
- the pieces-left counters equal the census of the grid;
- the king counters are never below the number of kings on the grid.

The king counters count crowning events, not live kings. A side's counters
can therefore run ahead of its kings. Positions the search explores are
boards that keep this invariant (`Boards.Position`).

The quirks of the code are modelled as written:

- `move` bumps the king counter on every landing on row 0 or 7, even for a
  piece that is already a king.
- `remove_piece` never lowers a king counter.
- A continuation scan receives only the piece jumped last. A capture list
  therefore holds at most two pieces: the one jumped last, then the one
  before it.
- Upward continuations stop above row 0, because their bound is
  `max(r - 3, 0)`.
- After a successful move `select` keeps the moved piece selected.
- When two scans produce the same destination, the later `update` wins. The
  order is up-left, up-right, down-left, down-right.

Scores are the source's material score times two, so that the half-point
king weight stays an integer. They are extended with the two infinities the
search starts from (`Search.ExtInt`).

## Model

The functions that compute carry little contract of their own. The lemmas in
the table specify them:

- `Boards.NewBoard` (`create_board`) is specified by `Boards.FreshBoard` and `Boards.InitialCellIs`.
- `Boards.GivePieces` (`give_pieces`) is specified by `Boards.GivePiecesSpec`.
- `Boards.Clear` is one iteration of the loop in `remove_piece`. It is covered by `Boards.Remove` and `Boards.RemoveKeepsValid`.
- `Boards.Piece.MovedTo` (`Piece.move`, main.py:104-107) and `Boards.Piece.Crowned` (`Piece.is_king`, main.py:94-95) are the two steps `Boards.Move` applies to the moving piece. `Boards.Move` specifies them: afterwards the target square holds `Piece(row, col, color, king || Crowning(row))`, so the side is kept, the square is the new one and the crown is set on row 0 or 7.
- `Boards.GetPiece` (`get_piece`, main.py:232-233) is a bare read of the grid. `Games.Movable` and `Games.Select` use it.
- `MoveGen.Scan`, `MoveGen.Land` and `MoveGen.FirstScan` model `go_left` / `go_right` (main.py:289-353). They are specified by `MoveGen.ScanUnique`, `MoveGen.ScanOnlyCaptures`, `MoveGen.ScanLandings`, `MoveGen.ScanJumps` and `MoveGen.LandGet`.
- `MoveGen.ValidMoves` (`validity_move`) is specified by `MoveGen.ValidMovesOffered`, `MoveGen.ValidMovesKeep`, `MoveGen.StepFound`, `MoveGen.JumpFound` and `MoveGen.DoubleJumpFound`.
- `Successors.CheckMove` (`check_move`) is specified by `Successors.CheckMoveSpec` and `Successors.CheckMoveValid`.
- `Successors.AllMoves` (`all_moves`) is specified by `Successors.PieceMoves`, `Successors.AllMovesMembers` and `Successors.SuccessorsValid`.

| member | source | states |
|---|---|---|
| `Boards.GivePiecesSpec` | main.py:213-219 | On a valid board, `give_pieces` lists exactly the pieces of that side that stand on their own squares, in row-major order. There are as many as the side's counter says. |
| `Boards.FreshBoard` | main.py:235-247 | A fresh board keeps the invariant and has 12 pieces per side and no kings. Occupied squares are exactly those with odd row + col outside rows 3 and 4. Each piece is uncrowned and records its square. Grey pieces are on rows 0-2 and red pieces on rows 5-7. |
| `Boards.InitialCellIs` | main.py:239-247 | The setup test `col % 2 == (row + 1) % 2` means odd row + col. The piece placed there is grey on rows 0-2 and red on rows 5-7. |
| `Boards.Move` | main.py:221-230 | `move` puts the piece on the target, with its new row and column, crowned on row 0 or 7. The source square receives what the target held. No other square changes, and neither pieces-left counter changes. The mover's king counter rises by one exactly when the target row is 0 or 7. |
| `Boards.MoveKeepsValid` | main.py:221-230 | Moving a piece onto an empty square with odd row + col keeps the board invariant. |
| `Boards.Remove` | main.py:257-264 | `remove_piece` empties exactly the squares the listed pieces name. Each side's counter drops by the number of its pieces in the list. The king counters do not change. |
| `Boards.RemoveKeepsValid` | main.py:257-264 | Removing distinct pieces that stand on their squares keeps every counter equal to the census of the grid. |
| `Boards.Winner` | main.py:266-272 | `is_winner` gives grey exactly when red's counter is at most 0, and red exactly when red's counter is positive and grey's is at most 0. Otherwise there is no winner. |
| `Boards.WinnerByCensus` | main.py:266-272 | On a valid board the winner is read off the grid: grey wins exactly when no red piece is left, and red exactly when red pieces remain but no grey one does. |
| `Boards.Evaluate` | main.py:210-211 | As a real number, the result is twice `(grey - red) + (grey kings * 0.5 - red kings * 0.5)`. |
| `Boards.EvaluateCensus` | main.py:210-211 | The fresh board scores 0. Before anyone is crowned, the score is twice the difference of the pieces each side has on the grid. |
| `Dicts.Put` | main.py:301-303 | `moves[k] = v`: afterwards k maps to v. The other keys and their values are kept, and the list grows only when k is new. |
| `Dicts.Update` | main.py:281-285 | `d.update(e)`: the keys are those of both. A key of e maps to its value in e, and any other key keeps its value in d. |
| `Dicts.PutOrder` | main.py:301-303 | `moves[k] = v` appends a new key at the end. A key already present keeps its position, and only its entry changes. This is the order in which `all_moves` later lists the boards. |
| `Dicts.UpdateOrder` | main.py:281-285 | After `d.update(e)` the keys of d keep their positions. The keys new to d follow, each once, in the order they first occur in e. |
| `MoveGen.ScanUnique` | main.py:289-320 | The dictionary a `go_left` / `go_right` scan returns, with all its recursive continuations merged in, has no key twice. |
| `MoveGen.ScanOnlyCaptures` | main.py:297-303 | A continuation scan, or a scan that has already passed an opponent, records only destinations with a non-empty capture list. |
| `MoveGen.ScanLandings` | main.py:289-320 | Every destination a scan records has these properties: it is an empty square on the board; it lies within the diagonal cone of the scan's first square, in its direction of travel; it has the same row + col parity. An upward scan with a non-negative bound never records row 0. |
| `MoveGen.ScanJumps` | main.py:296-316 | Every capture list a scan records holds at most two opponent pieces, each standing on its own square. The first is the piece jumped last, diagonally adjacent to the destination and one row back. An empty list appears only for the first square of a scan that has jumped nothing. |
| `MoveGen.ValidMovesOffered` | main.py:274-287 | The dictionary `validity_move` returns has unique keys. Every entry (k, v) satisfies all of the following. k is an empty square with odd row + col, on another row than the piece. It lies in the piece's diagonal cone, in a direction the piece may move (red up, grey down, kings both). v lists at most two opponents on their squares. v is empty exactly when k is one diagonal step away. Otherwise v starts with the piece jumped last, next to k and one row nearer to the piece. |
| `MoveGen.ValidMovesKeep` | main.py:280-285 | A destination found by one of the four scans keeps its capture list in the merged dictionary, unless a later scan can reach the same square. A left scan's destination survives when the right scan of the same heading cannot reach it. |
| `MoveGen.LandGet` | main.py:297-311 | On reaching an empty square the scan records it. The capture list is `last + skipped` in a continuation, otherwise `last`. The square keeps that value after both continuations are merged in. |
| `MoveGen.StepFound` | main.py:296-303 | An empty square one diagonal step away, in a direction the piece may move, is offered with an empty capture list. |
| `MoveGen.JumpFound` | main.py:296-316 | An opponent one diagonal step away with an empty square behind it makes that square a destination capturing exactly that opponent. |
| `MoveGen.DoubleJumpFound` | main.py:300-311 | For a jump over B onto C followed by a jump over D onto E, the dictionary maps C to [B] and E to [D, B]. |
| `MoveGen.DoubleJumpOverwritten` | main.py:281-285 | On a board where a red piece on (7, 4) can reach (3, 4) both by jumping left then right and by jumping right then left, the left-first double jump does not map (3, 4) to its own captures. The up-right scan is merged later and overwrites the entry. |
| `Successors.CheckMoveSpec` | main.py:53-58 | Applying an offered move has these effects. The piece stands on the destination, crowned on row 0 or 7. Its old square and the captured squares are empty, and every other square is unchanged. The opponent's counter drops by the number of captures and the mover's counter does not change. The mover's king counter counts a crowning. |
| `Successors.CheckMoveValid` | main.py:53-58 | Applying an offered move keeps the board invariant. |
| `Successors.PieceMoves` | main.py:66-70 | One piece contributes one board per dictionary entry, in dictionary order. The i-th board is `check_move` with the i-th entry. |
| `Successors.AllMovesMembers` | main.py:61-72 | A board is in `all_moves(board, color)` exactly when it is the result of some move `validity_move` offers some piece of that side. |
| `Successors.SuccessorsValid` | main.py:61-72 | Every successor board keeps the board invariant. |
| `Search.Larger` | main.py:31 | `max` of two extended scores is one of them and bounds both. |
| `Search.Smaller` | main.py:46 | `min` of two extended scores is one of them and is bounded by both. |
| `Search.AlphaBeta` | main.py:18-50 | At depth 0, or when the game is over, the position is returned as its own choice. Otherwise any board returned is one of the side's successors. |
| `Search.Sweep` | main.py:25-36 | The successor loop returns either the best move it started with or one of the successors it looked at. |
| `Search.AlphaBetaBounded` | main.py:18-50 | For any open window (alpha, beta) the pruned score is fail-soft correct against the minimax value. Below alpha it bounds the value from above, above beta from below, and strictly inside the window it equals the value. |
| `Search.SweepMaxBounded` | main.py:22-36 | The maximiser's loop, pruning once alpha reaches beta, keeps the fail-soft bound against the largest minimax value of its successors. |
| `Search.SweepMinBounded` | main.py:37-50 | The minimiser's loop, pruning once beta drops to alpha, keeps the fail-soft bound against the smallest minimax value of its successors. |
| `Search.AlphaBetaExact` | main.py:18-50 | Called with (-inf, +inf), the pruned search returns exactly the minimax value. |
| `Search.SweepRootMax` | main.py:22-36 | With the full window, the maximiser's loop ends on the larger of its starting best and the best successor value. When that value improves strictly on the start, the chosen move is the first successor that attains it. |
| `Search.SweepRootMin` | main.py:37-50 | The same for the minimiser: the smaller of its start and the least successor value, and the first successor attaining it. |
| `Search.AlphaBetaChoice` | main.py:18-50 | With the full window, the score is the minimax value. The move is the first successor attaining it, or none when the value is the side's starting infinity. |
| `Search.EngineChoice` | main.py:18-50 | For the engine's own rules, the score is the minimax value and the board returned is one of `all_moves` for the side to move. It is the first that attains the value, and none is returned when the value is the starting infinity. |
| `Search.EngineLeaf` | main.py:19-20 | A position that is won, or searched to depth 0, returns its evaluation and itself. |
| `Games.Init` | main.py:128-132 | `_init` / `reset` gives the board `create_board` sets up (12 pieces a side, king counters 0), red to move, nothing selected and no moves on offer. The controller invariant holds. |
| `Games.ChangingChances` | main.py:173-178 | Clears the offered moves and gives the turn to the other side. The board and the selection are untouched. |
| `Games.ChangingChancesTwice` | main.py:173-178 | Handing the turn over twice restores the game apart from the cleared offer. |
| `Games.ChangingMove` | main.py:183-185 | Installs the board the search chose and hands the turn over. It clears the offer and keeps the selection. A valid board keeps the controller invariant. |
| `Games.TryMove` | main.py:155-166 | `_move` succeeds exactly when a piece is selected, the clicked square is empty and it is an offered destination. On failure nothing changes. On success the turn passes, the offer is cleared, and the moved piece stays selected with its new square and crown. The controller invariant is kept either way. |
| `Games.TryMoveIsSuccessor` | main.py:155-166 | The board after a player's move is one of `all_moves` for the side to move: the player and the computer choose among the same successors. |
| `Games.TryMoveBoard` | main.py:155-166 | After a successful move the selected piece stands on the clicked square, crowned on row 0 or 7. Its old square and every captured square are empty, and the opponent loses one piece per capture. The new board is `check_move` applied to the offered entry, so `Successors.CheckMoveSpec` gives the rest of the frame and the king counters. |
| `Games.Select` | main.py:140-153 | `select` answers true exactly when the clicked square, after any move it made, holds a piece of the side to move. That piece is then selected and offered its `validity_move`. The controller invariant is kept. |
| `Games.SelectMoves` | main.py:140-153 | A click that completes a move makes it and answers false. The moved piece stays selected at its new square, crowned if it landed on row 0 or 7. |
| `Games.SelectPicks` | main.py:140-153 | A click that does not complete a move leaves the board and the turn alone. It answers true exactly when it picks a piece of the side to move. A pick selects that piece and offers its `validity_move`. Otherwise the old selection becomes `None` and the offer is unchanged. |

## Left out

- **Presentation layer.** Drawing (`make_square`, `Board.draw`, `Piece.draw`, `draw_valid_moves`, `Game.update`), the crown image, and the pixel coordinates of `Piece.get_pos` are left out. They produce output only and decide nothing.
- **Event loop.** The loop, frame pacing, window setup, `get_pos_from_mouse` and `main()` are left out, as I/O.
  - A click in the last few pixels of the 750-pixel window maps to row or column 8. `get_piece` (main.py:233) then raises `IndexError`, whether or not a piece is selected.
  - `Games.Select` and `Games.TryMove` require an on-board square. This excludes exactly that crash.
- **`deepcopy`.** Boards and pieces are values, so a copy is the value itself.
  - A captured piece and a selected piece are recorded as the value that stood on the square.
  - `Game.selected` after a move is the moved piece's new value. The source keeps a reference to the same piece, which `move` mutated.
- **Floating point.**
  - `Boards.Evaluate` returns twice the source's score as an integer; its contract states the relation to the real-valued score.
  - The ±inf starting values of the search become `ExtInt.NegInf` / `PosInf`.
- **Colours.** The RGB tuples become the enum `Color`.
- **Unused `game` argument.** The `game` parameter of `algo_prune_alphabeta`, `all_moves` and `check_move` is never used, so it is dropped.
- **Engine with no move.** When the side to move has no successor, `algo_prune_alphabeta` returns `None` as its board. `main()` then hands `None` to `changing_move` (`main.py:377`). In the same loop iteration `game.is_winner()` (`main.py:379`) calls `is_winner` on that `None` board (`main.py:135`) and raises `AttributeError`. `Games.ChangingMove` takes a board, and this case is not modelled beyond `Search.EngineChoice` saying that no board is chosen.
- **Stalemate.** A side with pieces but no moves is not detected as lost. The model does not add that.
- **Delegations.** `Game.is_winner` and `Game.fetch_board` only delegate to the board and are not modelled separately.
- **Generic search.** `algo_prune_alphabeta` is stated over rules passed as functions (`Search.Rules`). `Search.CheckersRules` instantiates them with `is_winner`, the doubled evaluation and `all_moves`, with grey maximising.
- MoveGen.DoubleJumpFound: does not cover a left jump followed by a right jump.
  - In that case the right-hand first scan can reach the same final square through its own double jump.
  - Because the later `update` wins, that square may then map to the right-hand scan's captures.
  - So the entry E ↦ [D, B] does not hold in general for that shape. `MoveGen.DoubleJumpOverwritten` exhibits a board where it fails.
- MoveGen.ValidMovesKeep: states survival only for destinations that no later scan can reach. A square two scans both reach keeps the later scan's value.
