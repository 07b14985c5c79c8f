/** The position fingerprint the game store keys positions by: one character
    per cell in row-major order. */
module Fingerprint {
  import opened Chess

  /** The character of a piece: the lower-case letter of its kind, shifted
      down by 32 (to upper case) for White. The default `.` of a kind without
      a letter is shifted too, so an empty cell stored as White maps to the
      control character 14; the fingerprint never asks for it. */
  function PieceToChar(p: Piece): (ch: char)
    ensures p.kind != Empty ==> ch == PieceToString(p)[0]
    ensures p.kind == Empty ==> ch == if p.color == White then 14 as char else '.'
  {
    var c := match p.kind
      case Pawn => 'p'
      case Knight => 'n'
      case Bishop => 'b'
      case Rook => 'r'
      case Queen => 'q'
      case King => 'k'
      case Empty => '.';
    if p.color == White then (c as int - 32) as char else c
  }

  /** The character of one cell: `.` when empty, the piece letter otherwise. */
  function CellChar(p: Piece): char {
    if p.kind == Empty then '.' else PieceToChar(p)
  }

  /** The fingerprint of a board: 64 characters, cell (r, c) at r*8 + c,
      each the cell's letter in the board's text rendering. Only the cells are
      read; turn, flags, the en-passant square and the counter do not enter it. */
  function GenerateBoardHash(b: Board): (h: string)
    ensures |h| == 64
    ensures forall i :: 0 <= i < 64 ==> h[i] == PieceToString(At(b.cells, SquareAt(i)))[0]
  {
    seq(64, i requires 0 <= i < 64 => CellChar(At(b.cells, SquareAt(i))))
  }

  /** The character of cell `sq`. */
  lemma HashAt(b: Board, sq: Square)
    requires InBounds(sq)
    ensures 0 <= Index(sq) < 64
    ensures GenerateBoardHash(b)[Index(sq)] == CellChar(At(b.cells, sq))
  {
    IndexInjective(sq);
  }

  /** Reading a fingerprint character back: the piece it names, or None for
      `.` and any other character. */
  function CharToPiece(ch: char): Option<Piece> {
    var lower := if 'A' <= ch <= 'Z' then (ch as int + 32) as char else ch;
    var color := if 'A' <= ch <= 'Z' then White else Black;
    match lower
    case 'p' => Some(Piece(Pawn, color))
    case 'n' => Some(Piece(Knight, color))
    case 'b' => Some(Piece(Bishop, color))
    case 'r' => Some(Piece(Rook, color))
    case 'q' => Some(Piece(Queen, color))
    case 'k' => Some(Piece(King, color))
    case _ => None
  }

  /** Every occupied cell's character reads back as its piece, and `.` as
      no piece. */
  lemma CharRoundTrip(p: Piece)
    ensures CharToPiece(CellChar(p)) == if p.kind == Empty then None else Some(p)
  {
  }

  /** The fingerprint identifies the position: two boards share it if and
      only if their cells show the same layout. */
  lemma {:induction false} HashIffSameLayout(b1: Board, b2: Board)
    ensures GenerateBoardHash(b1) == GenerateBoardHash(b2) <==> SameLayout(b1.cells, b2.cells)
  {
    var h1, h2 := GenerateBoardHash(b1), GenerateBoardHash(b2);
    if h1 == h2 {
      forall sq | InBounds(sq)
        ensures At(b1.cells, sq).kind == At(b2.cells, sq).kind
        ensures At(b1.cells, sq).kind != Empty ==> At(b1.cells, sq).color == At(b2.cells, sq).color
      {
        var x, y := At(b1.cells, sq), At(b2.cells, sq);
        HashAt(b1, sq);
        HashAt(b2, sq);
        CharRoundTrip(x);
        CharRoundTrip(y);
      }
    }
    if SameLayout(b1.cells, b2.cells) {
      forall i | 0 <= i < 64 ensures h1[i] == h2[i] {
        var sq := SquareAt(i);
        HashAt(b1, sq);
        HashAt(b2, sq);
      }
    }
  }

  /** The letters of the back ranks, column a to column h. */
  lemma BackRankLetters(i: int)
    requires 0 <= i < 8
    ensures PieceToString(Piece(BackRankKind(i), Black))[0] == "rnbqkbnr"[i]
    ensures PieceToString(Piece(BackRankKind(i), White))[0] == "RNBQKBNR"[i]
  {
    if i == 0 {} else if i == 1 {} else if i == 2 {} else if i == 3 {}
    else if i == 4 {} else if i == 5 {} else if i == 6 {} else {}
  }

  /** The characters of the starting position, cell by cell. */
  lemma InitialChar(b: Board, r: int, i: int)
    requires InitialLayout(b.cells) && 0 <= r < 8 && 0 <= i < 8
    ensures r == 0 ==> GenerateBoardHash(b)[r * 8 + i] == "rnbqkbnr"[i]
    ensures r == 1 ==> GenerateBoardHash(b)[r * 8 + i] == 'p'
    ensures 2 <= r < 6 ==> GenerateBoardHash(b)[r * 8 + i] == '.'
    ensures r == 6 ==> GenerateBoardHash(b)[r * 8 + i] == 'P'
    ensures r == 7 ==> GenerateBoardHash(b)[r * 8 + i] == "RNBQKBNR"[i]
  {
    var sq := Square(r, i);
    var h := GenerateBoardHash(b);
    var p := At(b.cells, sq);
    HashAt(b, sq);
    if r == 0 {
      assert p == Piece(BackRankKind(i), Black);
      BackRankLetters(i);
    } else if r == 7 {
      assert p == Piece(BackRankKind(i), White);
      BackRankLetters(i);
    } else if r == 1 {
      assert p == Piece(Pawn, Black);
    } else if r == 6 {
      assert p == Piece(Pawn, White);
    } else {
      assert p.kind == Empty;
    }
  }

  /** The fingerprint of the starting position. */
  lemma InitialHash()
    ensures GenerateBoardHash(NewBoard()) ==
      "rnbqkbnr" + "pppppppp" + seq(32, _ => '.') + "PPPPPPPP" + "RNBQKBNR"
  {
    var b := NewBoard();
    var h := GenerateBoardHash(b);
    var expected := "rnbqkbnr" + "pppppppp" + seq(32, _ => '.') + "PPPPPPPP" + "RNBQKBNR";
    forall k | 0 <= k < 64 ensures h[k] == expected[k] {
      InitialChar(b, k / 8, k % 8);
      if k < 8 {
        assert expected[k] == "rnbqkbnr"[k];
      } else if k < 16 {
        assert expected[k] == "pppppppp"[k - 8];
      } else if k < 48 {
        assert expected[k] == seq(32, _ => '.')[k - 16];
      } else if k < 56 {
        assert expected[k] == "PPPPPPPP"[k - 48];
      } else {
        assert expected[k] == "RNBQKBNR"[k - 56];
      }
    }
  }
}
