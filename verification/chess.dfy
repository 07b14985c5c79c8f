/** The board state of the engine: colours, pieces, squares, moves and the
    8×8 grid, together with the initial position and the deep copy. */
module Chess {

  datatype Color = White | Black

  /** `Empty` marks a vacant cell; the engine still stores a colour there
      (always White when it writes one). */
  datatype Kind = Empty | Pawn | Knight | Bishop | Rook | Queen | King

  datatype Piece = Piece(kind: Kind, color: Color)

  /** A square as the engine stores it: plain integers, so that the parser's
      out-of-range results and the search's (-1, -1) sentinel are representable. */
  datatype Square = Square(row: int, col: int)

  datatype Move = Move(from: Square, to: Square)

  /** Go's zero move: both squares (0, 0). */
  const ZeroMove: Move := Move(Square(0, 0), Square(0, 0))

  datatype Option<T> = None | Some(value: T)

  const NoPiece: Piece := Piece(Empty, White)

  /** An 8×8 grid of cells; row 0 is Black's back rank, row 7 White's. */
  type Grid = g: seq<seq<Piece>> | |g| == 8 && forall r :: 0 <= r < 8 ==> |g[r]| == 8
    witness seq(8, _ => seq(8, _ => NoPiece))

  datatype Board = Board(
    cells: Grid,
    turn: Color,
    gameOver: bool,
    winner: Color,
    enPassant: Option<Square>,
    whiteKingMoved: bool,
    blackKingMoved: bool,
    whiteRookAMoved: bool,
    whiteRookHMoved: bool,
    blackRookAMoved: bool,
    blackRookHMoved: bool,
    movesCount: int)

  function Opponent(c: Color): Color {
    if c == White then Black else White
  }

  predicate InBounds(sq: Square) {
    0 <= sq.row < 8 && 0 <= sq.col < 8
  }

  function At(g: Grid, sq: Square): Piece
    requires InBounds(sq)
  {
    g[sq.row][sq.col]
  }

  /** Row-major index of a square, 0 for a8 up to 63 for h1. */
  function Index(sq: Square): int {
    sq.row * 8 + sq.col
  }

  function SquareAt(i: int): (sq: Square)
    requires 0 <= i < 64
    ensures InBounds(sq) && Index(sq) == i
  {
    Square(i / 8, i % 8)
  }

  lemma IndexInjective(sq: Square)
    requires InBounds(sq)
    ensures 0 <= Index(sq) < 64 && SquareAt(Index(sq)) == sq
  {
  }

  /** Two grids show the same position when every cell holds the same kind
      of piece and every occupied cell the same colour; the colour stored in
      an empty cell is not part of the position. */
  ghost predicate SameLayout(g: Grid, h: Grid) {
    forall sq :: InBounds(sq) ==>
      At(g, sq).kind == At(h, sq).kind && (At(g, sq).kind != Empty ==> At(g, sq).color == At(h, sq).color)
  }

  function SetCell(g: Grid, sq: Square, p: Piece): (r: Grid)
    requires InBounds(sq)
    ensures At(r, sq) == p
    ensures forall s :: InBounds(s) && s != sq ==> At(r, s) == At(g, s)
  {
    g[sq.row := g[sq.row][sq.col := p]]
  }

  function Abs(x: int): nat {
    if x < 0 then -x else x
  }

  /** The back rank from column a to column h. */
  function BackRankKind(col: int): Kind {
    match col
    case 0 => Rook
    case 1 => Knight
    case 2 => Bishop
    case 3 => Queen
    case 4 => King
    case 5 => Bishop
    case 6 => Knight
    case _ => Rook
  }

  function InitialCells(): Grid {
    [ seq(8, c => Piece(BackRankKind(c), Black)),
      seq(8, _ => Piece(Pawn, Black)),
      seq(8, _ => NoPiece),
      seq(8, _ => NoPiece),
      seq(8, _ => NoPiece),
      seq(8, _ => NoPiece),
      seq(8, _ => Piece(Pawn, White)),
      seq(8, c => Piece(BackRankKind(c), White)) ]
  }

  /** The standard starting layout: Black on rows 0-1, White on rows 6-7,
      the back ranks in the order rook, knight, bishop, queen, king, bishop,
      knight, rook, and rows 2-5 empty. */
  ghost predicate InitialLayout(g: Grid) {
    && (forall c :: 0 <= c < 8 ==>
         && At(g, Square(0, c)) == Piece(BackRankKind(c), Black)
         && At(g, Square(1, c)) == Piece(Pawn, Black)
         && At(g, Square(6, c)) == Piece(Pawn, White)
         && At(g, Square(7, c)) == Piece(BackRankKind(c), White))
    && (forall r, c :: 2 <= r < 6 && 0 <= c < 8 ==> At(g, Square(r, c)).kind == Empty)
  }

  /** The standard starting position, White to move with every flag cleared. */
  function NewBoard(): (b: Board)
    ensures InitialLayout(b.cells)
    ensures b.turn == White && !b.gameOver && b.winner == White && b.movesCount == 0 && b.enPassant == None
    ensures !b.whiteKingMoved && !b.blackKingMoved
    ensures !b.whiteRookAMoved && !b.whiteRookHMoved && !b.blackRookAMoved && !b.blackRookHMoved
    ensures At(b.cells, Square(7, 4)) == Piece(King, White) && At(b.cells, Square(0, 4)) == Piece(King, Black)
  {
    Board(InitialCells(), White, false, White, None,
          false, false, false, false, false, false, 0)
  }

  /** Deep copy: every field, including the en-passant square, is copied. */
  function Clone(b: Board): (r: Board)
    ensures r == b
  {
    Board(b.cells, b.turn, b.gameOver, b.winner,
          match b.enPassant
          case None => None
          case Some(sq) => Some(Square(sq.row, sq.col)),
          b.whiteKingMoved, b.blackKingMoved,
          b.whiteRookAMoved, b.whiteRookHMoved,
          b.blackRookAMoved, b.blackRookHMoved,
          b.movesCount)
  }

  /** The one-letter symbol the text rendering prints for a cell: "." for an
      empty cell, an upper-case letter for White and a lower-case one for Black. */
  function PieceToString(p: Piece): (s: string)
    ensures |s| == 1
    ensures p.kind == Empty <==> s == "."
    ensures p.kind != Empty ==> (p.color == White <==> 'A' <= s[0] <= 'Z')
  {
    if p.kind == Empty then "."
    else if p.color == White then [Symbol(p.kind)]
    else [ToLower(Symbol(p.kind))]
  }

  /** Upper-case letter of a piece kind, as in standard algebraic notation. */
  function Symbol(k: Kind): (ch: char)
    requires k != Empty
    ensures 'A' <= ch <= 'Z'
  {
    match k
    case Pawn => 'P'
    case Knight => 'N'
    case Bishop => 'B'
    case Rook => 'R'
    case Queen => 'Q'
    case King => 'K'
  }

  function ToLower(ch: char): (r: char)
    ensures 'A' <= ch <= 'Z' ==> 'a' <= r <= 'z' && r as int == ch as int + 32
  {
    if 'A' <= ch <= 'Z' then (ch as int + 32) as char else ch
  }
}
