/** Move application, legal-move enumeration and the game-over rule. */
module Engine {
  import opened Chess
  import opened Rules

  /** A pawn moving onto the en-passant square captures the pawn behind it. */
  predicate IsEnPassantCapture(b: Board, m: Move)
    requires InBounds(m.from)
  {
    At(b.cells, m.from).kind == Pawn && b.enPassant.Some?
    && m.to.row == b.enPassant.value.row && m.to.col == b.enPassant.value.col
  }

  /** The square of the pawn taken en passant: one row behind the destination
      as seen from the capturing pawn. */
  function CapturedPawnSquare(b: Board, m: Move): Square
    requires InBounds(m.from)
  {
    if At(b.cells, m.from).color == White then Square(m.to.row + 1, m.to.col)
    else Square(m.to.row - 1, m.to.col)
  }

  /** A king moving two columns castles, wherever it stands. */
  predicate IsCastling(b: Board, m: Move)
    requires InBounds(m.from)
  {
    At(b.cells, m.from).kind == King && Abs(m.to.col - m.from.col) == 2
  }

  function RookFrom(m: Move): Square {
    Square(m.from.row, if m.to.col > m.from.col then 7 else 0)
  }

  function RookTo(m: Move): Square {
    Square(m.from.row, if m.to.col > m.from.col then 5 else 3)
  }

  predicate Promotes(piece: Piece, to: Square) {
    piece.kind == Pawn && ((piece.color == White && to.row == 0) || (piece.color == Black && to.row == 7))
  }

  /** What the engine needs of a move it applies without checking it: both
      squares, and the square of a pawn taken en passant, are on the board. */
  predicate Applicable(b: Board, m: Move) {
    && InBounds(m.from) && InBounds(m.to)
    && (IsEnPassantCapture(b, m) ==> InBounds(CapturedPawnSquare(b, m)))
  }

  /** Every cell a move writes to. */
  function Touched(b: Board, m: Move): set<Square>
    requires InBounds(m.from)
  {
    {m.from, m.to}
    + (if IsEnPassantCapture(b, m) then {CapturedPawnSquare(b, m)} else {})
    + (if IsCastling(b, m) then {RookFrom(m), RookTo(m)} else {})
  }

  /** Reference description of the cell at `sq` after the move, by the last
      write that reaches it: the promoted queen, then the emptied source, then
      the mover on its destination, then the castling rook's two squares, then
      the pawn taken en passant; any other cell keeps its piece. */
  function CellAfter(b: Board, m: Move, sq: Square): Piece
    requires Applicable(b, m) && InBounds(sq)
  {
    var piece := At(b.cells, m.from);
    if sq == m.to && Promotes(piece, m.to) then Piece(Queen, piece.color)
    else if sq == m.from then NoPiece
    else if sq == m.to then piece
    else if IsCastling(b, m) && sq == RookFrom(m) then NoPiece
    else if IsCastling(b, m) && sq == RookTo(m) then At(b.cells, RookFrom(m))
    else if IsEnPassantCapture(b, m) && sq == CapturedPawnSquare(b, m) then NoPiece
    else At(b.cells, sq)
  }

  /** The first write: the pawn taken en passant leaves the board. */
  function ClearCaptured(b: Board, m: Move): (g: Grid)
    requires Applicable(b, m)
    ensures forall sq :: InBounds(sq) ==>
      At(g, sq) == if IsEnPassantCapture(b, m) && sq == CapturedPawnSquare(b, m) then NoPiece else At(b.cells, sq)
  {
    if IsEnPassantCapture(b, m) then SetCell(b.cells, CapturedPawnSquare(b, m), NoPiece) else b.cells
  }

  /** The second write: on castling the rook jumps to the square the king
      passes over. */
  function ShiftRook(b: Board, m: Move, g: Grid): (g': Grid)
    requires InBounds(m.from)
    ensures forall sq :: InBounds(sq) ==>
      At(g', sq) == if IsCastling(b, m) && sq == RookFrom(m) then NoPiece
      else if IsCastling(b, m) && sq == RookTo(m) then At(g, RookFrom(m))
      else At(g, sq)
  {
    if IsCastling(b, m) then SetCell(SetCell(g, RookTo(m), At(g, RookFrom(m))), RookFrom(m), NoPiece)
    else g
  }

  /** The last writes: the mover lands, its source empties, and a pawn on the
      far rank becomes a queen. */
  function PlacePiece(m: Move, piece: Piece, g: Grid): (g': Grid)
    requires InBounds(m.from) && InBounds(m.to)
    ensures forall sq :: InBounds(sq) ==>
      At(g', sq) == if sq == m.to && Promotes(piece, m.to) then Piece(Queen, piece.color)
      else if sq == m.from then NoPiece
      else if sq == m.to then piece
      else At(g, sq)
  {
    var g3 := SetCell(SetCell(g, m.to, piece), m.from, NoPiece);
    if Promotes(piece, m.to) then SetCell(g3, m.to, Piece(Queen, piece.color)) else g3
  }

  /** The cells after the three stages of writes of a move. */
  function MovedCells(b: Board, m: Move): (g: Grid)
    requires Applicable(b, m)
    ensures forall sq :: InBounds(sq) ==> At(g, sq) == CellAfter(b, m, sq)
  {
    var g := PlacePiece(m, At(b.cells, m.from), ShiftRook(b, m, ClearCaptured(b, m)));
    assert forall sq :: InBounds(sq) ==> At(g, sq) == CellAfter(b, m, sq) by {
      forall sq | InBounds(sq) ensures At(g, sq) == CellAfter(b, m, sq) {
        WritesMatchCellAfter(b, m, sq);
      }
    }
    g
  }

  /** The three stages of writes together leave every cell as the reference
      description says. */
  lemma WritesMatchCellAfter(b: Board, m: Move, sq: Square)
    requires Applicable(b, m) && InBounds(sq)
    ensures At(PlacePiece(m, At(b.cells, m.from), ShiftRook(b, m, ClearCaptured(b, m))), sq) == CellAfter(b, m, sq)
  {
    var g1 := ClearCaptured(b, m);
    var g2 := ShiftRook(b, m, g1);
    if IsCastling(b, m) {
      assert !IsEnPassantCapture(b, m);
      assert At(g1, RookFrom(m)) == At(b.cells, RookFrom(m));
    }
    assert At(g2, sq) == (
      if IsCastling(b, m) && sq == RookFrom(m) then NoPiece
      else if IsCastling(b, m) && sq == RookTo(m) then At(b.cells, RookFrom(m))
      else At(g1, sq));
  }

  /** The has-moved flags after `piece` leaves `from`: a king sets its
      colour's flag, a rook on column a or h sets the flag of that corner. */
  function MarkMoved(b: Board, piece: Piece, from: Square): (r: Board)
    ensures forall c :: KingMoved(r, c) <==> KingMoved(b, c) || piece == Piece(King, c)
    ensures forall c, kingSide :: RookMoved(r, c, kingSide) <==>
      RookMoved(b, c, kingSide) || (piece == Piece(Rook, c) && from.col == (if kingSide then 7 else 0))
    ensures r.(whiteKingMoved := b.whiteKingMoved, blackKingMoved := b.blackKingMoved,
               whiteRookAMoved := b.whiteRookAMoved, whiteRookHMoved := b.whiteRookHMoved,
               blackRookAMoved := b.blackRookAMoved, blackRookHMoved := b.blackRookHMoved) == b
  {
    var isKing := piece.kind == King;
    var isRook := piece.kind == Rook;
    b.(
      whiteKingMoved := b.whiteKingMoved || (isKing && piece.color == White),
      blackKingMoved := b.blackKingMoved || (isKing && piece.color == Black),
      whiteRookAMoved := b.whiteRookAMoved || (isRook && piece.color == White && from.col == 0),
      whiteRookHMoved := b.whiteRookHMoved || (isRook && piece.color == White && from.col == 7),
      blackRookAMoved := b.blackRookAMoved || (isRook && piece.color == Black && from.col == 0),
      blackRookHMoved := b.blackRookHMoved || (isRook && piece.color == Black && from.col == 7))
  }

  /** The en-passant square after the move: the square a pawn skipped over
      with its two-row step, and none after any other move. */
  function EnPassantAfter(b: Board, m: Move): (ep: Option<Square>)
    requires InBounds(m.from)
    ensures ep.Some? <==> At(b.cells, m.from).kind == Pawn && Abs(m.to.row - m.from.row) == 2
    ensures ep.Some? ==> ep.value.col == m.to.col && Abs(ep.value.row - m.from.row) == 1 && Abs(ep.value.row - m.to.row) == 1
  {
    if At(b.cells, m.from).kind == Pawn && Abs(m.to.row - m.from.row) == 2
    then Some(Square((m.from.row + m.to.row) / 2, m.to.col))
    else None
  }

  /** The board update of a move, before the game-over test: the cells in the
      engine's order of writes, then the en-passant square, the has-moved flags,
      the turn and the move counter. */
  function ApplyMove(b: Board, m: Move): (r: Board)
    requires Applicable(b, m)
    ensures forall sq :: InBounds(sq) ==> At(r.cells, sq) == CellAfter(b, m, sq)
    ensures r.enPassant == EnPassantAfter(b, m)
    ensures r.turn == Opponent(b.turn) && r.movesCount == b.movesCount + 1
    // has-moved flags are only ever set, and only by the piece they name
    ensures forall c :: KingMoved(r, c) <==> KingMoved(b, c) || At(b.cells, m.from) == Piece(King, c)
    ensures forall c, kingSide :: RookMoved(r, c, kingSide) <==>
      RookMoved(b, c, kingSide) || (At(b.cells, m.from) == Piece(Rook, c) && m.from.col == (if kingSide then 7 else 0))
    ensures r.gameOver == b.gameOver && r.winner == b.winner
  {
    var f := MarkMoved(b, At(b.cells, m.from), m.from);
    Board(MovedCells(b, m), Opponent(b.turn), b.gameOver, b.winner, EnPassantAfter(b, m),
          f.whiteKingMoved, f.blackKingMoved,
          f.whiteRookAMoved, f.whiteRookHMoved, f.blackRookAMoved, f.blackRookHMoved,
          b.movesCount + 1)
  }

  /** A move writes only the cells it touches. */
  lemma UntouchedKept(b: Board, m: Move, sq: Square)
    requires Applicable(b, m) && InBounds(sq) && sq !in Touched(b, m)
    ensures CellAfter(b, m, sq) == At(b.cells, sq)
  {
  }

  /** Moves are enumerated source-square first, then destination, both in
      row-major order; this key grows strictly along the enumeration. */
  function ScanKey(m: Move): int {
    Index(m.from) * 64 + Index(m.to)
  }

  predicate InScanOrder(ms: seq<Move>) {
    forall i, j :: 0 <= i < j < |ms| ==> ScanKey(ms[i]) < ScanKey(ms[j])
  }

  /** The moves from `from` to destination squares with index `j` or more
      that `valid` accepts, in row-major destination order. */
  function MovesTo(valid: Move -> bool, from: Square, j: int): seq<Move>
    requires 0 <= j <= 64
    decreases 64 - j
  {
    if j == 64 then []
    else
      var m := Move(from, SquareAt(j));
      (if valid(m) then [m] else []) + MovesTo(valid, from, j + 1)
  }

  lemma {:induction false} MovesToSpec(valid: Move -> bool, from: Square, j: int)
    requires 0 <= j <= 64
    requires forall m :: valid(m) ==> InBounds(m.to)
    ensures forall m :: m in MovesTo(valid, from, j) <==> (m.from == from && valid(m) && j <= Index(m.to))
    ensures forall m :: m in MovesTo(valid, from, j) ==> InBounds(m.to)
    ensures InScanOrder(MovesTo(valid, from, j))
    decreases 64 - j
  {
    if j < 64 {
      var m := Move(from, SquareAt(j));
      MovesToSpec(valid, from, j + 1);
      forall m': Move | m'.from == from && valid(m') && j <= Index(m'.to) && m' != m
        ensures j + 1 <= Index(m'.to)
      {
        IndexInjective(m'.to);
      }
    }
  }

  /** The moves `valid` accepts whose source square has index `i` or more.
      Squares that are empty or hold a piece of the side not to move are
      skipped, as in the engine. */
  function MovesFrom(b: Board, valid: Move -> bool, i: int): seq<Move>
    requires 0 <= i <= 64
    decreases 64 - i
  {
    if i == 64 then []
    else
      var from := SquareAt(i);
      var piece := At(b.cells, from);
      if piece.kind == Empty || piece.color != b.turn then MovesFrom(b, valid, i + 1)
      else MovesTo(valid, from, 0) + MovesFrom(b, valid, i + 1)
  }

  /** Two runs in scan order, every key of the first below every key of the
      second, concatenate to a run in scan order. */
  lemma OrderConcat(a: seq<Move>, c: seq<Move>)
    requires InScanOrder(a) && InScanOrder(c)
    requires forall x, y :: x in a && y in c ==> ScanKey(x) < ScanKey(y)
    ensures InScanOrder(a + c)
  {
    forall k1, k2 | 0 <= k1 < k2 < |a + c|
      ensures ScanKey((a + c)[k1]) < ScanKey((a + c)[k2])
    {
      if k1 < |a| <= k2 {
        assert (a + c)[k1] in a && (a + c)[k2] in c;
      }
    }
  }

  /** What the enumeration needs of the move predicate: it only accepts moves
      between squares of the board that start on a piece of the side to move. */
  ghost predicate OnlyOwnPieces(b: Board, valid: Move -> bool) {
    forall m :: valid(m) ==>
      InBounds(m.from) && InBounds(m.to)
      && At(b.cells, m.from).kind != Empty && At(b.cells, m.from).color == b.turn
  }

  lemma {:induction false} MovesFromSpec(b: Board, valid: Move -> bool, i: int)
    requires 0 <= i <= 64
    requires OnlyOwnPieces(b, valid)
    ensures forall m :: m in MovesFrom(b, valid, i) <==> (valid(m) && i <= Index(m.from))
    ensures forall m :: m in MovesFrom(b, valid, i) ==> InBounds(m.from) && InBounds(m.to) && i <= Index(m.from)
    ensures InScanOrder(MovesFrom(b, valid, i))
    decreases 64 - i
  {
    if i < 64 {
      var from := SquareAt(i);
      var piece := At(b.cells, from);
      MovesFromSpec(b, valid, i + 1);
      forall m: Move | valid(m) && i <= Index(m.from) && m.from != from
        ensures i + 1 <= Index(m.from)
      {
        IndexInjective(m.from);
      }
      if !(piece.kind == Empty || piece.color != b.turn) {
        MovesToSpec(valid, from, 0);
        OrderConcat(MovesTo(valid, from, 0), MovesFrom(b, valid, i + 1));
      }
    }
  }

  /** The rules' move test as a predicate on moves. */
  function ValidOn(b: Board): Move -> bool {
    m => IsValidMove(b, m)
  }

  lemma ValidOnOwnPieces(b: Board)
    ensures OnlyOwnPieces(b, ValidOn(b))
    ensures forall m :: ValidOn(b)(m) == IsValidMove(b, m)
  {
    forall m | ValidOn(b)(m)
      ensures InBounds(m.from) && InBounds(m.to)
      ensures At(b.cells, m.from).kind != Empty && At(b.cells, m.from).color == b.turn
    {
      assert IsValidMove(b, m);
    }
  }

  /** All valid moves of the side to move, in the engine's scan order: source
      squares row by row, and for each the destination squares row by row. */
  function GetLegalMoves(b: Board): (r: seq<Move>)
    ensures forall m :: m in r <==> IsValidMove(b, m)
    ensures forall m :: m in r ==> InBounds(m.from) && InBounds(m.to)
    ensures InScanOrder(r)
  {
    ValidOnOwnPieces(b);
    MovesFromSpec(b, ValidOn(b), 0);
    MovesFrom(b, ValidOn(b), 0)
  }

  /** The simplified end-of-game rule: the game ends when the side to move has
      no valid move or more than 200 moves have been made; either way the
      winner is recorded as White, which doubles as the draw marker. */
  function CheckGameOver(b: Board): (r: Board)
    ensures r.gameOver <==> b.gameOver || |GetLegalMoves(b)| == 0 || b.movesCount > 200
    ensures r.winner == (if |GetLegalMoves(b)| == 0 || b.movesCount > 200 then White else b.winner)
    ensures r.(gameOver := b.gameOver, winner := b.winner) == b
  {
    var moves := GetLegalMoves(b);
    var b1 := if |moves| == 0 then b.(gameOver := true, winner := White) else b;
    if b1.movesCount > 200 then b1.(gameOver := true, winner := White) else b1
  }

  /** Apply a move without validating it, then test for the end of the game. */
  function MakeMove(b: Board, m: Move): (r: Board)
    requires Applicable(b, m)
    ensures forall sq :: InBounds(sq) && sq !in Touched(b, m) ==> At(r.cells, sq) == At(b.cells, sq)
    ensures r.(gameOver := b.gameOver, winner := b.winner) == ApplyMove(b, m)
    // game over: set, never cleared
    ensures b.gameOver ==> r.gameOver
    // the side to move next is checked for a valid reply, on the board before
    // the game-over flag is written
    ensures r.gameOver <==> b.gameOver || |GetLegalMoves(ApplyMove(b, m))| == 0 || b.movesCount + 1 > 200
    ensures r.winner == (if |GetLegalMoves(ApplyMove(b, m))| == 0 || b.movesCount + 1 > 200 then White else b.winner)
  {
    var a := ApplyMove(b, m);
    forall sq | InBounds(sq) && sq !in Touched(b, m) ensures At(a.cells, sq) == At(b.cells, sq) {
      UntouchedKept(b, m, sq);
    }
    CheckGameOver(a)
  }

  /** A valid move can always be applied. */
  lemma ValidIsApplicable(b: Board, m: Move)
    requires IsValidMove(b, m)
    ensures Applicable(b, m)
  {
    if IsEnPassantCapture(b, m) {
      var piece := At(b.cells, m.from);
      assert PieceRule(b, m, piece);
      assert IsValidPawnMove(b, m, piece);
    }
  }

  // ----- a game as a sequence of moves -----

  /** Moves that can be applied one after another. */
  predicate Playable(b: Board, ms: seq<Move>)
    decreases |ms|
  {
    |ms| == 0 || (Applicable(b, ms[0]) && Playable(MakeMove(b, ms[0]), ms[1..]))
  }

  function PlayAll(b: Board, ms: seq<Move>): Board
    requires Playable(b, ms)
    decreases |ms|
  {
    if |ms| == 0 then b else PlayAll(MakeMove(b, ms[0]), ms[1..])
  }

  /** Over any sequence of moves the counter advances by one per move, an
      ended game stays ended, and the recorded winner stays White: from a new
      board the engine never records Black as the winner. */
  lemma {:induction false} WinnerStaysWhite(b: Board, ms: seq<Move>)
    requires Playable(b, ms) && b.winner == White
    ensures PlayAll(b, ms).winner == White
    ensures b.gameOver ==> PlayAll(b, ms).gameOver
    ensures PlayAll(b, ms).movesCount == b.movesCount + |ms|
    decreases |ms|
  {
    if |ms| > 0 {
      WinnerStaysWhite(MakeMove(b, ms[0]), ms[1..]);
    }
  }
}
