/** Pseudo-legal move validation: the per-piece movement rules, path
    clearance, castling preconditions and the common checks that every move
    must pass. There is no check detection: a move that leaves the mover's own
    king attacked is still valid. */
module Rules {
  import opened Chess

  /** The step (-1, 0 or 1) that moves one coordinate toward its target. */
  function Sign(x: int): (s: int)
    ensures -1 <= s <= 1
    ensures s * x == Abs(x)
  {
    if x > 0 then 1 else if x < 0 then -1 else 0
  }

  /** `k` steps of size `d`, where `d` is -1, 0 or 1. */
  function Scale(k: int, d: int): int
    requires -1 <= d <= 1
  {
    if d == 1 then k else if d == -1 then -k else 0
  }

  /** The square `k` steps of (dr, dc) away from `sq`. */
  function Offset(sq: Square, dr: int, dc: int, k: int): Square
    requires -1 <= dr <= 1 && -1 <= dc <= 1
  {
    Square(sq.row + Scale(k, dr), sq.col + Scale(k, dc))
  }

  predicate EmptyAt(g: Grid, sq: Square) {
    InBounds(sq) && At(g, sq).kind == Empty
  }

  /** A move along a rank, a file or a diagonal (including the null move). */
  predicate IsLine(m: Move) {
    var dr := m.to.row - m.from.row;
    var dc := m.to.col - m.from.col;
    dr == 0 || dc == 0 || Abs(dr) == Abs(dc)
  }

  /** Number of single steps a line move takes. */
  function LineLength(m: Move): nat {
    var dr := Abs(m.to.row - m.from.row);
    var dc := Abs(m.to.col - m.from.col);
    if dr < dc then dc else dr
  }

  /** Reference meaning of a clear path: every square strictly between the
      two ends of the line is on the board and empty. */
  predicate ClearBetween(g: Grid, m: Move) {
    var sr := Sign(m.to.row - m.from.row);
    var sc := Sign(m.to.col - m.from.col);
    forall j :: 0 < j < LineLength(m) ==> EmptyAt(g, Offset(m.from, sr, sc, j))
  }

  /** The scanning loop of the path test: walk from `cur` toward `to`, one
      step of (dr, dc) at a time, failing at the first occupied square.
      `remaining` is the number of steps still to go. */
  function Walk(g: Grid, cur: Square, dr: int, dc: int, to: Square, remaining: nat): (r: bool)
    requires -1 <= dr <= 1 && -1 <= dc <= 1
    requires InBounds(cur) && InBounds(to)
    requires to == Offset(cur, dr, dc, remaining)
    requires dr != 0 || dc != 0 || remaining == 0
    ensures r <==> forall j :: 0 <= j < remaining ==> EmptyAt(g, Offset(cur, dr, dc, j))
    decreases remaining
  {
    if cur == to then
      true
    else if At(g, cur).kind != Empty then
      assert !EmptyAt(g, Offset(cur, dr, dc, 0));
      false
    else
      var next := Square(cur.row + dr, cur.col + dc);
      var rest := Walk(g, next, dr, dc, to, remaining - 1);
      assert EmptyAt(g, Offset(cur, dr, dc, 0));
      ShiftedRun(g, cur, next, dr, dc, remaining - 1);
      rest
  }

  /** The squares after one step from `cur` are the squares from step 1 on. */
  lemma ShiftedRun(g: Grid, cur: Square, next: Square, dr: int, dc: int, n: nat)
    requires -1 <= dr <= 1 && -1 <= dc <= 1
    requires next == Square(cur.row + dr, cur.col + dc)
    ensures (forall j :: 0 <= j < n ==> EmptyAt(g, Offset(next, dr, dc, j)))
        <==> (forall j :: 1 <= j < n + 1 ==> EmptyAt(g, Offset(cur, dr, dc, j)))
  {
    if forall j :: 0 <= j < n ==> EmptyAt(g, Offset(next, dr, dc, j)) {
      forall j | 1 <= j < n + 1
        ensures EmptyAt(g, Offset(cur, dr, dc, j))
      {
        assert Offset(next, dr, dc, j - 1) == Offset(cur, dr, dc, j);
      }
    }
    if forall j :: 1 <= j < n + 1 ==> EmptyAt(g, Offset(cur, dr, dc, j)) {
      forall j | 0 <= j < n
        ensures EmptyAt(g, Offset(next, dr, dc, j))
      {
        assert Offset(next, dr, dc, j) == Offset(cur, dr, dc, j + 1);
      }
    }
  }

  /** Whether every square strictly between the ends of a line move is empty. */
  function PathClear(g: Grid, m: Move): (r: bool)
    requires InBounds(m.from) && InBounds(m.to) && IsLine(m)
    ensures r <==> ClearBetween(g, m)
  {
    var sr := Sign(m.to.row - m.from.row);
    var sc := Sign(m.to.col - m.from.col);
    var n := LineLength(m);
    if n == 0 then true
    else
      var start := Square(m.from.row + sr, m.from.col + sc);
      var clear := Walk(g, start, sr, sc, m.to, n - 1);
      ShiftedRun(g, m.from, start, sr, sc, n - 1);
      clear
  }

  /** Row direction a pawn of colour `c` advances in. */
  function Forward(c: Color): int {
    if c == Black then 1 else -1
  }

  function PawnStartRow(c: Color): int {
    if c == Black then 1 else 6
  }

  predicate IsEnemy(p: Piece, c: Color) {
    p.kind != Empty && p.color != c
  }

  function IsValidPawnMove(b: Board, m: Move, piece: Piece): (r: bool)
    requires InBounds(m.from) && InBounds(m.to)
    ensures r <==>
      // one step straight ahead onto an empty square
      || (m.to == Square(m.from.row + Forward(piece.color), m.from.col) && At(b.cells, m.to).kind == Empty)
      // two steps from the start row over an empty square onto an empty square
      || (&& m.from.row == PawnStartRow(piece.color)
          && m.to == Square(m.from.row + 2 * Forward(piece.color), m.from.col)
          && EmptyAt(b.cells, Square(m.from.row + Forward(piece.color), m.from.col))
          && At(b.cells, m.to).kind == Empty)
      // one step diagonally ahead onto an enemy piece or the en-passant square
      || (&& m.to.row == m.from.row + Forward(piece.color)
          && Abs(m.to.col - m.from.col) == 1
          && (IsEnemy(At(b.cells, m.to), piece.color) || b.enPassant == Some(m.to)))
  {
    var direction := if piece.color == Black then 1 else -1;
    var startRow := if piece.color == Black then 1 else 6;
    var rowDiff := m.to.row - m.from.row;
    var colDiff := m.to.col - m.from.col;
    if colDiff == 0 && rowDiff == direction then
      At(b.cells, m.to).kind == Empty
    else if colDiff == 0 && rowDiff == 2 * direction && m.from.row == startRow then
      var middleRow := m.from.row + direction;
      At(b.cells, Square(middleRow, m.from.col)).kind == Empty && At(b.cells, m.to).kind == Empty
    else if Abs(colDiff) == 1 && rowDiff == direction then
      var target := At(b.cells, m.to);
      if target.kind != Empty && target.color != piece.color then true
      else b.enPassant.Some? && m.to.row == b.enPassant.value.row && m.to.col == b.enPassant.value.col
    else
      false
  }

  /** The eight (row, column) displacements of a knight's jump. */
  const KnightOffsets: set<(int, int)> :=
    {(-2, -1), (-2, 1), (-1, -2), (-1, 2), (1, -2), (1, 2), (2, -1), (2, 1)}

  function IsValidKnightMove(m: Move): (r: bool)
    ensures r <==> (m.to.row - m.from.row, m.to.col - m.from.col) in KnightOffsets
  {
    var rowDiff := Abs(m.to.row - m.from.row);
    var colDiff := Abs(m.to.col - m.from.col);
    (rowDiff == 2 && colDiff == 1) || (rowDiff == 1 && colDiff == 2)
  }

  function IsValidBishopMove(b: Board, m: Move): (r: bool)
    requires InBounds(m.from) && InBounds(m.to)
    ensures r <==> Abs(m.to.row - m.from.row) == Abs(m.to.col - m.from.col) && ClearBetween(b.cells, m)
  {
    var rowDiff := Abs(m.to.row - m.from.row);
    var colDiff := Abs(m.to.col - m.from.col);
    if rowDiff != colDiff then false
    else PathClear(b.cells, m)
  }

  function IsValidRookMove(b: Board, m: Move): (r: bool)
    requires InBounds(m.from) && InBounds(m.to)
    ensures r <==> (m.from.row == m.to.row || m.from.col == m.to.col) && ClearBetween(b.cells, m)
  {
    if m.from.row != m.to.row && m.from.col != m.to.col then false
    else PathClear(b.cells, m)
  }

  function IsValidQueenMove(b: Board, m: Move): (r: bool)
    requires InBounds(m.from) && InBounds(m.to)
    ensures r <==> IsLine(m) && ClearBetween(b.cells, m)
  {
    IsValidBishopMove(b, m) || IsValidRookMove(b, m)
  }

  function KingMoved(b: Board, c: Color): bool {
    if c == White then b.whiteKingMoved else b.blackKingMoved
  }

  /** The flag of the rook on the king's side (column h) or the queen's side (column a). */
  function RookMoved(b: Board, c: Color, kingSide: bool): bool {
    if c == White then (if kingSide then b.whiteRookHMoved else b.whiteRookAMoved)
    else (if kingSide then b.blackRookHMoved else b.blackRookAMoved)
  }

  /** The scan of columns `lo` up to (not including) `hi` on one row. */
  function EmptyRun(g: Grid, row: int, lo: int, hi: int): (r: bool)
    requires 0 <= row < 8 && 0 <= lo && hi <= 8
    ensures r <==> forall c :: lo <= c < hi ==> At(g, Square(row, c)).kind == Empty
    decreases hi - lo
  {
    if lo >= hi then true
    else if At(g, Square(row, lo)).kind != Empty then false
    else EmptyRun(g, row, lo + 1, hi)
  }

  /** Castling preconditions as the engine checks them: neither the king nor
      the rook on that side has moved, a rook of the king's colour stands in
      the corner of the king's row, and the squares between them are empty.
      No square is tested for attack. */
  function CanCastle(b: Board, m: Move, piece: Piece): (r: bool)
    requires InBounds(m.from)
    ensures r <==>
      var kingSide := m.to.col > m.from.col;
      var rookCol := if kingSide then 7 else 0;
      && !KingMoved(b, piece.color)
      && !RookMoved(b, piece.color, kingSide)
      && At(b.cells, Square(m.from.row, rookCol)) == Piece(Rook, piece.color)
      && forall c :: Min(m.from.col, rookCol) < c < Max(m.from.col, rookCol) ==>
           At(b.cells, Square(m.from.row, c)).kind == Empty
  {
    if piece.color == White && b.whiteKingMoved then false
    else if piece.color == Black && b.blackKingMoved then false
    else
      var isKingSide := m.to.col > m.from.col;
      var rookCol := if isKingSide then 7 else 0;
      var rookMoved := RookMoved(b, piece.color, isKingSide);
      if rookMoved then false
      else
        var rook := At(b.cells, Square(m.from.row, rookCol));
        if rook.kind != Rook || rook.color != piece.color then false
        else EmptyRun(b.cells, m.from.row, Min(m.from.col, rookCol) + 1, Max(m.from.col, rookCol))
  }

  function Min(a: int, b: int): int {
    if a < b then a else b
  }

  function Max(a: int, b: int): int {
    if a > b then a else b
  }

  function IsValidKingMove(b: Board, m: Move, piece: Piece): (r: bool)
    requires InBounds(m.from) && InBounds(m.to)
    ensures r <==>
      || (Abs(m.to.row - m.from.row) <= 1 && Abs(m.to.col - m.from.col) <= 1)
      || (m.to.row == m.from.row && Abs(m.to.col - m.from.col) == 2 && CanCastle(b, m, piece))
  {
    var rowDiff := Abs(m.to.row - m.from.row);
    var colDiff := Abs(m.to.col - m.from.col);
    if rowDiff <= 1 && colDiff <= 1 then true
    else if rowDiff == 0 && colDiff == 2 then CanCastle(b, m, piece)
    else false
  }

  /** The movement rule of the piece's kind. */
  function PieceRule(b: Board, m: Move, piece: Piece): bool
    requires InBounds(m.from) && InBounds(m.to)
  {
    match piece.kind
    case Pawn => IsValidPawnMove(b, m, piece)
    case Knight => IsValidKnightMove(m)
    case Bishop => IsValidBishopMove(b, m)
    case Rook => IsValidRookMove(b, m)
    case Queen => IsValidQueenMove(b, m)
    case King => IsValidKingMove(b, m, piece)
    case Empty => false
  }

  /** Pseudo-legal validity of a move for the side to move. */
  function IsValidMove(b: Board, m: Move): (r: bool)
    // every rejection the common checks make
    ensures r ==> InBounds(m.from) && InBounds(m.to)
    ensures r ==> At(b.cells, m.from).kind != Empty && At(b.cells, m.from).color == b.turn
    ensures r ==> !(At(b.cells, m.to).kind != Empty && At(b.cells, m.to).color == b.turn)
    ensures r ==> m.from != m.to
    // once the common checks pass, the piece's own rule decides
    ensures InBounds(m.from) && InBounds(m.to) && At(b.cells, m.from).color == b.turn
            && !(At(b.cells, m.to).kind != Empty && At(b.cells, m.to).color == b.turn)
            ==> (r <==> PieceRule(b, m, At(b.cells, m.from)))
  {
    if m.from.row < 0 || m.from.row > 7 || m.from.col < 0 || m.from.col > 7 then false
    else if m.to.row < 0 || m.to.row > 7 || m.to.col < 0 || m.to.col > 7 then false
    else
      var piece := At(b.cells, m.from);
      if piece.kind == Empty then false
      else if piece.color != b.turn then false
      else
        var target := At(b.cells, m.to);
        if target.kind != Empty && target.color == piece.color then false
        else PieceRule(b, m, piece)
  }
}
