/** The text interface of the terminal game: squares written as a file letter
    and a rank digit ("e2"), moves as two squares separated by white space
    ("e2 e4"). Text is a sequence of bytes, as Go strings are. */
module Notation {
  import opened Chess
  import opened Rules
  import opened Engine

  type byte = x: int | 0 <= x < 256

  // ----- splitting on white space -----

  /** The length of the white-space character whose UTF-8 encoding starts at
      byte `i`, or 0 when none does. These are the characters Unicode marks
      White_Space: tab, line feed, vertical tab, form feed, carriage return
      and space, U+0085, U+00A0, U+1680, U+2000-U+200A, U+2028, U+2029,
      U+202F, U+205F and U+3000. Their first bytes are never continuation
      bytes, so a match here is always at a character boundary. */
  function SpaceWidth(s: seq<byte>, i: int): (w: int)
    requires 0 <= i < |s|
    ensures 0 <= w <= 3 && i + w <= |s|
    ensures s[i] < 0x80 ==> (w > 0 <==> s[i] in {9, 10, 11, 12, 13, 32})
  {
    var b0 := s[i];
    if b0 in {9, 10, 11, 12, 13, 32} then 1
    else if b0 == 0xC2 && i + 1 < |s| && s[i + 1] in {0x85, 0xA0} then 2
    else if i + 2 >= |s| then 0
    else if b0 == 0xE1 && s[i + 1] == 0x9A && s[i + 2] == 0x80 then 3
    else if b0 == 0xE2 && s[i + 1] == 0x80 && (s[i + 2] <= 0x8A || s[i + 2] in {0xA8, 0xA9, 0xAF}) && s[i + 2] >= 0x80 then 3
    else if b0 == 0xE2 && s[i + 1] == 0x81 && s[i + 2] == 0x9F then 3
    else if b0 == 0xE3 && s[i + 1] == 0x80 && s[i + 2] == 0x80 then 3
    else 0
  }

  /** The end of the field that starts at `i`: the first white space at or
      after `i`, or the end of the text. */
  function FieldEnd(s: seq<byte>, i: int): (j: int)
    requires 0 <= i <= |s|
    ensures i <= j <= |s|
    ensures j == |s| || SpaceWidth(s, j) > 0
    ensures forall k :: i <= k < j ==> SpaceWidth(s, k) == 0
    decreases |s| - i
  {
    if i == |s| || SpaceWidth(s, i) > 0 then i else FieldEnd(s, i + 1)
  }

  /** The maximal runs of non-white-space bytes, in order. */
  function Fields(s: seq<byte>): (fs: seq<seq<byte>>)
    ensures forall k :: 0 <= k < |fs| ==> |fs[k]| > 0
    decreases |s|
  {
    if |s| == 0 then []
    else if SpaceWidth(s, 0) > 0 then Fields(s[SpaceWidth(s, 0)..])
    else
      var j := FieldEnd(s, 0);
      [s[..j]] + Fields(s[j..])
  }

  /** Printable ASCII other than space: the bytes that can make up a field. */
  predicate Printable(f: seq<byte>) {
    forall k :: 0 <= k < |f| ==> 0x21 <= f[k] <= 0x7E
  }

  /** Fields written out with one space between neighbours. */
  function JoinFields(fs: seq<seq<byte>>): seq<byte> {
    if |fs| == 0 then []
    else if |fs| == 1 then fs[0]
    else fs[0] + [32] + JoinFields(fs[1..])
  }

  /** A printable field followed by white space or the end of the text ends
      where that field ends. */
  lemma {:induction false} FieldEndOfPrintable(f: seq<byte>, rest: seq<byte>, i: int)
    requires Printable(f) && 0 <= i <= |f|
    requires |rest| == 0 || rest[0] == 32
    ensures FieldEnd(f + rest, i) == |f|
    decreases |f| - i
  {
    var s := f + rest;
    if i < |f| {
      assert s[i] == f[i];
      FieldEndOfPrintable(f, rest, i + 1);
    } else if |rest| > 0 {
      assert s[i] == 32;
    }
  }

  /** Splitting undoes joining, for non-empty printable fields. */
  lemma {:induction false} FieldsOfJoin(fs: seq<seq<byte>>)
    requires forall k :: 0 <= k < |fs| ==> |fs[k]| > 0 && Printable(fs[k])
    ensures Fields(JoinFields(fs)) == fs
    decreases |fs|
  {
    if |fs| == 1 {
      var s := JoinFields(fs);
      assert s == fs[0] + [];
      FieldEndOfPrintable(fs[0], [], 0);
      assert s[0] == fs[0][0];
      assert s[..|fs[0]|] == fs[0];
      assert s[|fs[0]|..] == [];
    } else if |fs| > 1 {
      var rest := [32] + JoinFields(fs[1..]);
      var s := fs[0] + rest;
      assert s == JoinFields(fs);
      FieldEndOfPrintable(fs[0], rest, 0);
      assert s[0] == fs[0][0];
      assert s[..|fs[0]|] == fs[0];
      assert s[|fs[0]|..] == rest;
      assert rest[1..] == JoinFields(fs[1..]);
      FieldsOfJoin(fs[1..]);
      assert [fs[0]] + fs[1..] == fs;
    }
  }

  // ----- squares -----

  /** A square name: a file letter a-h and a rank digit 1-8. */
  predicate IsSquareName(s: seq<byte>) {
    |s| == 2 && 'a' as int <= s[0] <= 'h' as int && '1' as int <= s[1] <= '8' as int
  }

  /** The square a two-byte text names. Both bytes are offset in 8-bit
      arithmetic, which wraps modulo 256 and is not range-checked; any other
      length gives (-1, -1). */
  function ParsePosition(pos: seq<byte>): (sq: Square)
    ensures |pos| != 2 ==> sq == Square(-1, -1)
    ensures |pos| == 2 ==> 0 <= sq.col < 256 && 8 - 255 <= sq.row <= 8
    ensures |pos| == 2 ==> (sq.col + 'a' as int) % 256 == pos[0] && (8 - sq.row + '0' as int) % 256 == pos[1]
    ensures InBounds(sq) <==> IsSquareName(pos)
  {
    if |pos| != 2 then Square(-1, -1)
    else Square(8 - (pos[1] - '0' as int) % 256, (pos[0] - 'a' as int) % 256)
  }

  /** A move typed as exactly two white-space separated fields; anything else
      reads as the zero move. */
  function ParseMove(input: seq<byte>): (m: Move)
    ensures |Fields(input)| != 2 ==> m == ZeroMove
    ensures |Fields(input)| == 2 ==> m.from == ParsePosition(Fields(input)[0]) && m.to == ParsePosition(Fields(input)[1])
  {
    var parts := Fields(input);
    if |parts| != 2 then ZeroMove
    else Move(ParsePosition(parts[0]), ParsePosition(parts[1]))
  }

  /** Go's conversion of a machine integer to a 32-bit rune: two's-complement
      truncation. */
  function Int32(x: int): (r: int)
    ensures -0x8000_0000 <= r < 0x8000_0000
    ensures -0x8000_0000 <= x < 0x8000_0000 ==> r == x
  {
    (x + 0x8000_0000) % 0x1_0000_0000 - 0x8000_0000
  }

  /** The UTF-8 encoding of a rune; a negative rune, a surrogate or one
      beyond U+10FFFF encodes as U+FFFD. */
  function EncodeRune(r: int): (s: seq<byte>)
    ensures 1 <= |s| <= 4
    ensures 0 <= r < 0x80 ==> s == [r]
  {
    if 0 <= r < 0x80 then [r]
    else if 0x80 <= r < 0x800 then [0xC0 + r / 64, 0x80 + r % 64]
    else if r < 0 || 0xD800 <= r <= 0xDFFF || r > 0x10FFFF then [0xEF, 0xBF, 0xBD]
    else if r < 0x10000 then [0xE0 + r / 4096, 0x80 + (r / 64) % 64, 0x80 + r % 64]
    else [0xF0 + r / 262144, 0x80 + (r / 4096) % 64, 0x80 + (r / 64) % 64, 0x80 + r % 64]
  }

  /** Decimal digits of a natural number, most significant first. */
  function Digits(n: nat): (s: seq<byte>)
    ensures |s| >= 1
    ensures forall k :: 0 <= k < |s| ==> '0' as int <= s[k] <= '9' as int
    ensures n < 10 ==> s == [n + '0' as int]
  {
    if n < 10 then [n + '0' as int] else Digits(n / 10) + [n % 10 + '0' as int]
  }

  /** The value of a string of decimal digits. */
  function DigitsValue(s: seq<byte>): int {
    if |s| == 0 then 0 else DigitsValue(s[..|s| - 1]) * 10 + (s[|s| - 1] - '0' as int)
  }

  lemma {:induction false} DigitsRoundTrip(n: nat)
    ensures DigitsValue(Digits(n)) == n
  {
    if n >= 10 {
      var s := Digits(n);
      assert s[..|s| - 1] == Digits(n / 10);
      DigitsRoundTrip(n / 10);
    }
  }

  /** Signed decimal, as Go's %d verb prints an integer. */
  function Decimal(n: int): (s: seq<byte>)
    ensures n >= 0 ==> s == Digits(n)
    ensures n < 0 ==> s == ['-' as int] + Digits(-n)
  {
    if n < 0 then ['-' as int] + Digits(-n) else Digits(n)
  }

  /** The name of a square: the rune 'a' + column, UTF-8 encoded, then the
      rank 8 - row in decimal. */
  function PosToString(p: Square): (s: seq<byte>)
    ensures InBounds(p) ==> IsSquareName(s)
  {
    EncodeRune(Int32('a' as int + p.col)) + Decimal(8 - p.row)
  }

  /** Printing a parsed square name gives the name back. */
  lemma ParseThenPrint(s: seq<byte>)
    requires IsSquareName(s)
    ensures PosToString(ParsePosition(s)) == s
  {
    var p := ParsePosition(s);
    assert p.col == s[0] - 'a' as int && p.row == 8 - (s[1] - '0' as int);
  }

  /** Parsing a printed square gives the square back. */
  lemma PrintThenParse(p: Square)
    requires InBounds(p)
    ensures ParsePosition(PosToString(p)) == p
  {
    var s := PosToString(p);
    assert s == ['a' as int + p.col, 8 - p.row + '0' as int];
  }

  lemma ParseE2()
    ensures ParsePosition(['e' as int, '2' as int]) == Square(6, 4)
  {
  }

  /** A move as it is typed: two square names and one space. */
  function FormatMove(m: Move): seq<byte> {
    JoinFields([PosToString(m.from), PosToString(m.to)])
  }

  /** Typing a move on the board and reading it back gives the move. */
  lemma ParseMoveRoundTrip(m: Move)
    requires InBounds(m.from) && InBounds(m.to)
    ensures ParseMove(FormatMove(m)) == m
  {
    var a, c := PosToString(m.from), PosToString(m.to);
    FieldsOfJoin([a, c]);
    PrintThenParse(m.from);
    PrintThenParse(m.to);
  }

  // ----- the human's turn -----

  /** The human's turn of the terminal game: the typed move is applied only
      when the engine accepts it; otherwise the board stays as it was and the
      player is asked again. */
  function HumanTurn(b: Board, input: seq<byte>): (r: Board)
    ensures !IsValidMove(b, ParseMove(input)) ==> r == b
    ensures IsValidMove(b, ParseMove(input)) ==>
      Applicable(b, ParseMove(input)) && r == MakeMove(b, ParseMove(input))
    ensures r != b ==> |Fields(input)| == 2 && IsSquareName(Fields(input)[0]) && IsSquareName(Fields(input)[1])
  {
    var m := ParseMove(input);
    if !IsValidMove(b, m) then b
    else
      ValidIsApplicable(b, m);
      MakeMove(b, m)
  }

  /** Malformed input is always refused: the zero move it reads as starts and
      ends on one square, and a field that is not a square name reads as a
      square off the board. */
  lemma MalformedRefused(b: Board, input: seq<byte>)
    requires !(|Fields(input)| == 2 && IsSquareName(Fields(input)[0]) && IsSquareName(Fields(input)[1]))
    ensures !IsValidMove(b, ParseMove(input))
    ensures HumanTurn(b, input) == b
  {
  }
}
