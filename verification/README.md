# chess-ai core in Dafny

This project models the core of the chess-ai Go program: an engine and an agent that learns by playing itself. The model covers:

- the board engine: the starting position, move validity, move application with en passant, castling and promotion, legal-move generation, and the simplified end-of-game rule;
- the agent's 768-entry board encoding;
- its depth-limited minimax with alpha-beta pruning;
- its epsilon-greedy move choice;
- its end-of-game learning pass and epsilon decay;
- the 64-character position fingerprint that keys the move database;
- the terminal's square and move notation.

Everything is written as pure functions over immutable values. Randomness, the neural network and all I/O are parameters or are left out.

Modules:

- `Chess` (chess.dfy): pieces, squares, moves and boards; `NewBoard`, `Clone`, `PieceToString`.
- `Rules` (rules.dfy): `IsValidMove` and the per-piece rules, `CanCastle`, `PathClear`.
- `Engine` (engine.dfy): `MakeMove` and its parts, `GetLegalMoves`, `CheckGameOver`, and games as move sequences.
- `Encoding` (encoding.dfy): the twelve-plane board encoding.
- `Fingerprint` (fingerprint.dfy): `GenerateBoardHash` and `PieceToChar`.
- `Notation` (notation.dfy): `ParsePosition`, `ParseMove` and `PosToString`, over bytes. Go's `strings.Fields` is modelled with Unicode white space.
- `Lookahead` (search.dfy): the agent's alpha-beta search, an unpruned minimax reference, and the proofs that they agree.
- `Agents` (agent.dfy): the agent record, `RecordState`, `Learn`, epsilon decay and `ChooseMove`.

Notes on how the code behaves:

- Empty cells hold `Piece(Empty, White)`, as in the code.
- There is no check detection. A "legal" move is a pseudo-legal one, and castling does not look at attacked squares.
- The end-of-game rule always records White as the winner, which doubles as the draw marker. `WinnerStaysWhite` shows that no sequence of moves from a new board records Black as the winner.

Simplifications the code's own comments admit, and behaviours a reader might not expect. The model follows the code in each:

- There is no check, checkmate or stalemate detection. Castling does not test the squares the king crosses (game/board.go:290-291). A side without moves ends the game as a draw, with no test for mate (game/board.go:450-452).
- `Learn` keeps the recorded positions. The terminal game clears them itself.
- The root search always maximises (agent/agent.go:43), whichever colour the agent plays.
- Epsilon decays by 0.5% per game, so it does not reach its 0.01 floor after a hundred games. `EarlyDecay` proves it is still at least 0.05 after a hundred games that start from 0.1.

## Model

| member | source | states |
|---|---|---|
| Chess.NewBoard | game/board.go:63-99 | back ranks are rook, knight, bishop, queen, king, bishop, knight, rook, with Black on row 0 and White on row 7; pawns fill rows 1 and 6 and rows 2-5 are empty; White moves first, the game is not over, the winner field is White, the counter is 0, there is no en-passant square and no castling flag is set |
| Chess.Clone | game/board.go:463-486 | the copy equals the original in every field, including the en-passant square |
| Chess.PieceToString | game/board.go:508-527 | one character; "." exactly for an empty cell; upper case exactly for White's pieces |
| Rules.IsValidMove | game/board.go:102-141 | a valid move has both squares on the board, moves a piece of the side to move, does not land on a piece of its own side and does not stay in place; once those checks pass, the moving piece's rule decides |
| Rules.IsValidPawnMove | game/board.go:144-183 | true exactly for: one step ahead onto an empty cell; two steps ahead from the start row over two empty cells; one step diagonally ahead onto an enemy piece or onto the en-passant square |
| Rules.IsValidKnightMove | game/board.go:186-190 | true exactly when the displacement is one of the eight knight jumps |
| Rules.IsValidBishopMove | game/board.go:193-202 | true exactly for a diagonal move whose intermediate cells are all empty |
| Rules.IsValidRookMove | game/board.go:205-211 | true exactly for a move along a row or a column whose intermediate cells are all empty |
| Rules.IsValidQueenMove | game/board.go:214-216 | true exactly for a straight or diagonal move whose intermediate cells are all empty |
| Rules.IsValidKingMove | game/board.go:219-234 | true exactly for a one-square step in any direction, or a two-column move along its row when castling is allowed |
| Rules.CanCastle | game/board.go:237-293 | true exactly when neither the king nor that side's rook has moved, a rook of the king's colour stands in that corner of the king's row, and the cells between them are empty; no square is tested for attack |
| Rules.PathClear | game/board.go:296-324 | the step-by-step walk succeeds exactly when every cell strictly between the two squares of a line move is empty |
| Engine.MovedCells | game/board.go:330-368 | applying the writes in order (remove the pawn taken en passant, move the castling rook, place the piece, empty the origin, put a queen on a pawn reaching the last row) leaves every cell as the last write to it says (CellAfter) |
| Engine.MarkMoved | game/board.go:377-399 | a king flag is set exactly when that colour's king moves; a rook flag is set exactly when that colour's rook leaves column a or column h respectively; every other field is unchanged |
| Engine.EnPassantAfter | game/board.go:370-375 | an en-passant square exists exactly after a pawn moves two rows; it is on the destination column, one row from both the origin and the destination |
| Engine.ApplyMove | game/board.go:327-408 | the cells are as CellAfter describes, with a pawn reaching the far row becoming a queen; the en-passant square and the flags are as described above; the turn passes to the opponent and the counter rises by one |
| Engine.UntouchedKept | game/board.go:327-368 | a move changes no cell other than its origin, its destination, the castling rook's two cells and the en-passant victim |
| Engine.MovesFromSpec | game/board.go:415-442 | the scan over origins from index i on yields exactly the accepted moves from those squares, all on the board, in strictly increasing scan order |
| Engine.GetLegalMoves | game/board.go:415-442 | contains exactly the valid moves, each once, in row-major order of origin and then destination |
| Engine.CheckGameOver | game/board.go:445-460 | the game is over exactly when it already was, or the side to move has no valid move, or more than 200 moves were made; in the last two cases the winner is White; no other field changes |
| Engine.MakeMove | game/board.go:327-412 | cells the move does not touch are unchanged; every other field is as ApplyMove gives it; the game then ends exactly when it had already ended, or the side now to move has no valid move, or the counter passes 200; an ended game never restarts |
| Engine.ValidIsApplicable | game/board.go:144-183 | every valid move can be applied; in particular the cell of a pawn taken en passant is on the board |
| Engine.WinnerStaysWhite | game/board.go:445-460 | over any sequence of moves the winner stays White, an ended game stays ended, and the counter rises by one per move |
| Encoding.BoardToVector | agent/agent.go:111-141 | 768 entries, each 0 or 1; entry p*64 + r*8 + c is 1 exactly when cell (r, c) holds the piece of plane p (pawn, knight, bishop, rook, queen, king; White's planes first) |
| Encoding.EncodingIffSameLayout | agent/agent.go:111-141 | two boards encode alike exactly when every cell has the same kind and every occupied cell the same colour |
| Encoding.OnesCountOccupied | agent/agent.go:111-141 | the number of ones equals the number of occupied cells |
| Encoding.InitialOnes | agent/agent.go:111-141 | the starting position encodes with 32 ones |
| Fingerprint.PieceToChar | database/database.go:249-272 | a piece's character is its letter in the board rendering; an empty cell marked White would give character 14 |
| Fingerprint.GenerateBoardHash | database/database.go:232-246 | 64 characters; character r*8 + c is the rendering's letter for cell (r, c), "." when empty |
| Fingerprint.CharRoundTrip | database/database.go:249-272 | every fingerprint character reads back as the piece it came from, and "." as no piece |
| Fingerprint.HashIffSameLayout | database/database.go:232-246 | two boards share a fingerprint exactly when every cell has the same kind and every occupied cell the same colour |
| Fingerprint.InitialHash | database/database.go:232-246 | the starting position's fingerprint is rnbqkbnr, pppppppp, 32 dots, PPPPPPPP, RNBQKBNR |
| Notation.FieldsOfJoin | main.go:180 | splitting on white space gives back any non-empty printable fields joined with single spaces |
| Notation.ParsePosition | main.go:191-200 | any length other than 2 gives (-1, -1); otherwise the column is the first byte minus 'a' and 8 minus the row is the second byte minus '0', each modulo 256 as 8-bit arithmetic wraps, so the column is in 0..255 and the row in -247..8 ("i1" gives row 7, column 8); the square is on the board exactly when the text is a file a-h followed by a rank 1-8 |
| Notation.ParseMove | main.go:179-189 | gives the zero move unless the input has exactly two fields; otherwise gives the squares the two fields name |
| Notation.PosToString | main.go:202-206 | an on-board square prints as a file letter a-h and a rank digit 1-8 |
| Notation.ParseThenPrint | main.go:191-206 | printing a parsed square name gives the name back |
| Notation.PrintThenParse | main.go:191-206 | parsing a printed on-board square gives the square back |
| Notation.ParseE2 | main.go:191-200 | "e2" names row 6, column 4 |
| Notation.ParseMoveRoundTrip | main.go:179-206 | a move between on-board squares, typed as two names and a space, reads back as itself |
| Notation.DigitsRoundTrip | main.go:204 | the decimal digits of a natural number read back as that number |
| Notation.HumanTurn | main.go:135-141 | input the engine refuses leaves the board unchanged; input it accepts is applied with `MakeMove` to the parsed move; a changed board means the input was two square names |
| Notation.MalformedRefused | main.go:135-141 | input that is not two square names is always refused and never changes the board |
| Lookahead.AlphaBeta | agent/agent.go:52-102 | the move is NoMove or one of the legal moves; at depth 0, in an ended game or with no legal move the result is the position's score and NoMove |
| Lookahead.MaxLoop | agent/agent.go:65-82 | the maximiser keeps a move from the list (or the one it had) and never returns less than its running best |
| Lookahead.MinLoop | agent/agent.go:83-101 | the minimiser keeps a move from the list (or the one it had) and never returns more than its running best |
| Lookahead.AlphaBetaClamped | agent/agent.go:52-102 | inside the window (alpha, beta) the pruned score equals the unpruned minimax score; at or below alpha it stays at or below alpha; at or above beta it stays at or above beta |
| Lookahead.MinimaxFinite | agent/agent.go:104-108 | with leaf scores strictly inside the sentinels, every minimax score is strictly inside them too |
| Lookahead.AlphaBetaRootExact | agent/agent.go:43 | the agent's root call, maximising over the full window, returns exactly the unpruned minimax score and move |
| Lookahead.AlphaBetaPicksFirstBest | agent/agent.go:62-82 | the root move is the first legal move, in scan order, whose minimax score is the largest that any legal move reaches |
| Lookahead.AlphaBetaRootFindsMove | agent/agent.go:43-46 | with bounded leaf scores, a live position with legal moves never makes the root search return NoMove |
| Lookahead.Evaluate | agent/agent.go:104-108 | the network's output on the board's encoding; its properties are stated by EvaluateSeesLayoutOnly |
| Lookahead.EvaluateSeesLayoutOnly | agent/agent.go:104-108 | two boards with the same pieces on the same squares score the same, whatever the turn, flags, en-passant square or counter |
| Lookahead.Play | agent/agent.go:68-69 | a legal move is applied with MakeMove to a copy of the board |
| Agents.NewAgent | agent/agent.go:20-28 | a new agent has epsilon 0.1, gamma 0.99 and no recorded positions |
| Agents.GetMovesCount | agent/agent.go:183-185 | the number of recorded positions: 0 for a new agent (NewAgent), one more after each RecordState, and the number of positions recorded (RecordAllCount) |
| Agents.RecordAllCount | agent/agent.go:143-147 | recording a sequence of positions raises GetMovesCount by their number, appends their encodings in order, and changes nothing else |
| Agents.EndedGameScored | agent/agent.go:53-54 | on an ended game the agent's root search returns the network's score of the position and the sentinel move |
| Agents.RecordState | agent/agent.go:143-147 | appends the board's encoding to the history, changes nothing else, and raises GetMovesCount by one |
| Agents.Learn | agent/agent.go:149-170 | with an empty history nothing happens; otherwise the k-th training call, counting from the most recent position, has target finalReward discounted k times by gamma; epsilon decays once; the history is kept |
| Agents.LearnTargets | agent/agent.go:155-163 | position i of n is trained toward finalReward * gamma^(n-1-i) |
| Agents.DiscountedIsPow | agent/agent.go:156-163 | discounting k times by gamma equals multiplying by gamma^k |
| Agents.DecayEpsilon | agent/agent.go:165-169 | the new epsilon is the old one times 0.995 when that is at least 0.01, and 0.01 otherwise; so it is never below 0.01 and, from 0.01 or more, never above the old one |
| Agents.DecayMonotone | agent/agent.go:165-169 | from 0.01 or more, epsilon never rises across games, never falls below 0.01, and stays put only at 0.01 |
| Agents.EarlyDecay | agent/agent.go:165-169 | starting from 0.1, for the first 100 games epsilon is 0.1 * 0.995^n and at least 0.05 |
| Agents.ChooseMove | agent/agent.go:31-49 | the zero move when there is no legal move, otherwise a legal move; when exploring, the randomly drawn legal move |
| Agents.ChooseMoveGreedy | agent/agent.go:43-48 | when not exploring in a live game with bounded scores, the move is the root search's, never the random fallback |

## Left out

- Engine.MakeMove: requires `Applicable`, both squares on the board and, for an en-passant capture, the taken pawn's square too. On any other move the code indexes outside the board and panics (game/board.go:328, 337, 339, 359-360). Every caller either checks the move with `IsValidMove` or takes it from `GetLegalMoves`. Both kinds are valid moves, and `ValidIsApplicable` shows a valid move is applicable.
- Agents.Agent: the record leaves out the agent's reward history (agent/agent.go:17), which nothing reads.
- The neural network (agent/agent.go:104-108 calls it): the evaluator is a parameter, a function from the encoding to a real. The weights and their training are outside the model. `Learn` returns the list of training calls it would make, in order.
- Floating point: scores, rewards and epsilon are reals. Rounding, NaN and infinities are not modelled. The search's sentinels are the largest finite float64 value, (2 - 2^-52) * 2^1023 exactly, as in the code.
- Randomness: `ChooseMove` takes the uniform draw `u` and the index draw `pick`, and uses `pick` modulo the number of legal moves in place of `rand.Intn`. Only one of the two index draws in the code is ever made on any call.
- Lookahead.AlphaBeta: `depth` is a natural number. With a negative depth the code would search until the game ends, which the 200-move rule bounds, instead of to a fixed depth. No caller passes one.
- Lookahead.AlphaBetaRootExact: requires leaf scores strictly between the sentinels. The network's tanh output in [-1, 1] meets this.
- Chess.Clone: the copy is a value, so aliasing between copies cannot arise and is not a property to state.
- Notation.PosToString: square coordinates are unbounded integers, so the 64-bit overflow of `8 - row` for extreme rows is not modelled. The 32-bit rune truncation, UTF-8 encoding with U+FFFD for invalid runes, and signed decimal are modelled.
- The terminal loop's I/O: reading lines, the "quit"/"exit" commands, printing, and saving the agent. `HumanTurn` models only the move step.
- The web and self-play front ends, the statistics sink, and the database's SQL operations. Only `GenerateBoardHash` and `pieceToChar` from database/database.go are modelled.
- `Board.String` is not modelled beyond `PieceToString`.
- Engine.GetLegalMoves: that the starting position has exactly 20 legal moves is not proved. Proving it means enumerating all 4096 origin-destination pairs against the rules.
