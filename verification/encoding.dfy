/** The agent's input encoding: twelve 64-cell bit planes, one per piece kind
    and colour, laid out plane after plane in row-major square order. */
module Encoding {
  import opened Chess

  /** The piece kinds of the six planes of each colour, in plane order. */
  const PlaneKinds: seq<Kind> := [Pawn, Knight, Bishop, Rook, Queen, King]

  /** Planes 0-5 hold White's pieces, planes 6-11 Black's. */
  function PlanePiece(p: int): Piece
    requires 0 <= p < 12
  {
    Piece(PlaneKinds[p % 6], if p >= 6 then Black else White)
  }

  /** Position of square `sq` of plane `p` in the vector. */
  function Slot(p: int, sq: Square): int {
    p * 64 + Index(sq)
  }

  lemma SlotParts(p: int, sq: Square)
    requires 0 <= p < 12 && InBounds(sq)
    ensures 0 <= Slot(p, sq) < 768
    ensures Slot(p, sq) / 64 == p && SquareAt(Slot(p, sq) % 64) == sq
  {
    IndexInjective(sq);
  }

  function Bit(g: Grid, i: int): int
    requires 0 <= i < 768
  {
    if At(g, SquareAt(i % 64)) == PlanePiece(i / 64) then 1 else 0
  }

  /** The 768-entry vector the evaluator reads: entry p*64 + r*8 + c is 1
      exactly when cell (r, c) holds the piece of plane p. */
  function BoardToVector(b: Board): (v: seq<int>)
    ensures |v| == 768
    ensures forall i :: 0 <= i < |v| ==> v[i] == 0 || v[i] == 1
    ensures forall p, sq :: 0 <= p < 12 && InBounds(sq) ==>
      0 <= Slot(p, sq) < 768 && (v[Slot(p, sq)] == 1 <==> At(b.cells, sq) == PlanePiece(p))
  {
    var v := seq(768, i requires 0 <= i < 768 => Bit(b.cells, i));
    assert forall p, sq :: 0 <= p < 12 && InBounds(sq) ==>
      0 <= Slot(p, sq) < 768 && (v[Slot(p, sq)] == 1 <==> At(b.cells, sq) == PlanePiece(p)) by {
      forall p, sq | 0 <= p < 12 && InBounds(sq)
        ensures 0 <= Slot(p, sq) < 768 && (v[Slot(p, sq)] == 1 <==> At(b.cells, sq) == PlanePiece(p))
      {
        SlotParts(p, sq);
      }
    }
    v
  }

  /** Position of a piece kind in PlaneKinds. */
  function KindIndex(k: Kind): (r: int)
    requires k != Empty
    ensures 0 <= r < 6 && PlaneKinds[r] == k
  {
    match k
    case Pawn => 0
    case Knight => 1
    case Bishop => 2
    case Rook => 3
    case Queen => 4
    case King => 5
  }

  /** The plane of an occupied cell's piece. */
  function PlaneOf(piece: Piece): (p: int)
    requires piece.kind != Empty
    ensures 0 <= p < 12 && PlanePiece(p) == piece
  {
    var k := KindIndex(piece.kind);
    var p := if piece.color == White then k else k + 6;
    assert p % 6 == k;
    assert PlanePiece(p).kind == piece.kind;
    assert PlanePiece(p).color == piece.color;
    p
  }

  lemma PlaneOfPlanePiece(p: int)
    requires 0 <= p < 12
    ensures PlanePiece(p).kind != Empty && PlaneOf(PlanePiece(p)) == p
  {
    var k := p % 6;
    assert p == k || p == k + 6;
    if k == 0 {} else if k == 1 {} else if k == 2 {} else if k == 3 {} else if k == 4 {} else {}
  }

  /** Only an occupied cell matches a plane, and only the plane of its piece. */
  lemma PlaneMatch(piece: Piece, p: int)
    requires 0 <= p < 12
    ensures piece == PlanePiece(p) <==> piece.kind != Empty && p == PlaneOf(piece)
  {
    PlaneOfPlanePiece(p);
  }

  /** The encoding sees exactly the position: two boards encode alike if and
      only if their cells show the same layout. Turn, flags, the en-passant
      square and the counter are not encoded. */
  lemma {:induction false} EncodingIffSameLayout(b1: Board, b2: Board)
    ensures BoardToVector(b1) == BoardToVector(b2) <==> SameLayout(b1.cells, b2.cells)
  {
    var v1, v2 := BoardToVector(b1), BoardToVector(b2);
    if v1 == v2 {
      forall sq | InBounds(sq)
        ensures At(b1.cells, sq).kind == At(b2.cells, sq).kind
        ensures At(b1.cells, sq).kind != Empty ==> At(b1.cells, sq).color == At(b2.cells, sq).color
      {
        var x, y := At(b1.cells, sq), At(b2.cells, sq);
        if x.kind != Empty {
          var p := PlaneOf(x);
          assert v1[Slot(p, sq)] == 1;
          PlaneMatch(y, p);
        } else if y.kind != Empty {
          var p := PlaneOf(y);
          assert v2[Slot(p, sq)] == 1;
          PlaneMatch(x, p);
        }
      }
    }
    if SameLayout(b1.cells, b2.cells) {
      forall i | 0 <= i < 768 ensures v1[i] == v2[i] {
        var p, sq := i / 64, SquareAt(i % 64);
        assert Slot(p, sq) == i;
        PlaneMatch(At(b1.cells, sq), p);
        PlaneMatch(At(b2.cells, sq), p);
      }
    }
  }

  // ----- counting the ones -----

  function Sum(s: seq<int>): int {
    if |s| == 0 then 0 else Sum(s[..|s| - 1]) + s[|s| - 1]
  }

  lemma {:induction false} SumConcat(a: seq<int>, c: seq<int>)
    ensures Sum(a + c) == Sum(a) + Sum(c)
    decreases |c|
  {
    if |c| == 0 {
      assert a + c == a;
    } else {
      assert (a + c)[..|a + c| - 1] == a + c[..|c| - 1];
      SumConcat(a, c[..|c| - 1]);
    }
  }

  function Occupied(g: Grid, i: int): int
    requires 0 <= i < 64
  {
    if At(g, SquareAt(i)).kind == Empty then 0 else 1
  }

  /** The number of occupied cells with index below `n`. */
  function CountOccupied(g: Grid, n: int): int
    requires 0 <= n <= 64
  {
    if n == 0 then 0 else CountOccupied(g, n - 1) + Occupied(g, n - 1)
  }

  function Matches(g: Grid, p: int, i: int): int
    requires 0 <= p < 12 && 0 <= i < 64
  {
    if At(g, SquareAt(i)) == PlanePiece(p) then 1 else 0
  }

  /** The number of cells with index below `n` holding the piece of plane `p`. */
  function PlaneCount(g: Grid, p: int, n: int): int
    requires 0 <= p < 12 && 0 <= n <= 64
  {
    if n == 0 then 0 else PlaneCount(g, p, n - 1) + Matches(g, p, n - 1)
  }

  /** The sum of PlaneCount over the planes below `p`. */
  function PlanesCount(g: Grid, p: int, n: int): int
    requires 0 <= p <= 12 && 0 <= n <= 64
  {
    if p == 0 then 0 else PlanesCount(g, p - 1, n) + PlaneCount(g, p - 1, n)
  }

  /** How many of the planes below `p` the cell at index `i` matches. */
  function Hits(g: Grid, p: int, i: int): int
    requires 0 <= p <= 12 && 0 <= i < 64
  {
    if p == 0 then 0 else Hits(g, p - 1, i) + Matches(g, p - 1, i)
  }

  lemma {:induction false} PlanesCountStep(g: Grid, p: int, n: int)
    requires 0 <= p <= 12 && 0 <= n < 64
    ensures PlanesCount(g, p, n + 1) == PlanesCount(g, p, n) + Hits(g, p, n)
  {
    if p > 0 {
      PlanesCountStep(g, p - 1, n);
    }
  }

  lemma {:induction false} HitsBelow(g: Grid, p: int, i: int)
    requires 0 <= p <= 12 && 0 <= i < 64
    ensures Hits(g, p, i) == if At(g, SquareAt(i)).kind != Empty && PlaneOf(At(g, SquareAt(i))) < p then 1 else 0
  {
    if p > 0 {
      HitsBelow(g, p - 1, i);
      PlaneMatch(At(g, SquareAt(i)), p - 1);
    }
  }

  lemma {:induction false} PlanesAtStart(g: Grid, p: int)
    requires 0 <= p <= 12
    ensures PlanesCount(g, p, 0) == 0
  {
    if p > 0 {
      PlanesAtStart(g, p - 1);
    }
  }

  /** Summed over all twelve planes, each occupied cell is counted once. */
  lemma {:induction false} PlanesCountIsOccupied(g: Grid, n: int)
    requires 0 <= n <= 64
    ensures PlanesCount(g, 12, n) == CountOccupied(g, n)
  {
    if n == 0 {
      PlanesAtStart(g, 12);
    } else {
      PlanesCountStep(g, 12, n - 1);
      HitsBelow(g, 12, n - 1);
      PlanesCountIsOccupied(g, n - 1);
    }
  }

  /** The first `n` entries of plane `p` sum to the plane's count below `n`. */
  lemma {:induction false} PlaneSum(b: Board, p: int, n: int)
    requires 0 <= p < 12 && 0 <= n <= 64
    ensures Sum(BoardToVector(b)[p * 64 .. p * 64 + n]) == PlaneCount(b.cells, p, n)
  {
    var v := BoardToVector(b);
    if n > 0 {
      var s := v[p * 64 .. p * 64 + n];
      assert s[..|s| - 1] == v[p * 64 .. p * 64 + n - 1];
      SlotParts(p, SquareAt(n - 1));
      assert s[|s| - 1] == v[Slot(p, SquareAt(n - 1))];
      PlaneSum(b, p, n - 1);
    }
  }

  lemma {:induction false} PlanesSum(b: Board, p: int)
    requires 0 <= p <= 12
    ensures Sum(BoardToVector(b)[.. p * 64]) == PlanesCount(b.cells, p, 64)
  {
    var v := BoardToVector(b);
    if p > 0 {
      assert v[.. p * 64] == v[.. (p - 1) * 64] + v[(p - 1) * 64 .. (p - 1) * 64 + 64];
      SumConcat(v[.. (p - 1) * 64], v[(p - 1) * 64 .. (p - 1) * 64 + 64]);
      PlaneSum(b, p - 1, 64);
      PlanesSum(b, p - 1);
    }
  }

  /** The vector holds one 1 per occupied cell. */
  lemma OnesCountOccupied(b: Board)
    ensures Sum(BoardToVector(b)) == CountOccupied(b.cells, 64)
  {
    var v := BoardToVector(b);
    assert v[.. 12 * 64] == v;
    PlanesSum(b, 12);
    PlanesCountIsOccupied(b.cells, 64);
  }

  /** Skipping a run of cells that are all occupied, or all empty. */
  lemma {:induction false} CountRun(g: Grid, i: int, j: int, full: bool)
    requires 0 <= i <= j <= 64
    requires forall k :: i <= k < j ==> Occupied(g, k) == (if full then 1 else 0)
    ensures CountOccupied(g, j) == CountOccupied(g, i) + (if full then j - i else 0)
    decreases j - i
  {
    if i < j {
      CountRun(g, i, j - 1, full);
    }
  }

  /** Sixteen pieces a side: the initial board encodes with 32 ones. */
  lemma InitialOnes()
    ensures Sum(BoardToVector(NewBoard())) == 32
  {
    var b := NewBoard();
    OnesCountOccupied(b);
    forall k | 0 <= k < 16 ensures Occupied(b.cells, k) == 1 {
    }
    forall k | 16 <= k < 48 ensures Occupied(b.cells, k) == 0 {
    }
    forall k | 48 <= k < 64 ensures Occupied(b.cells, k) == 1 {
    }
    CountRun(b.cells, 0, 16, true);
    CountRun(b.cells, 16, 48, false);
    CountRun(b.cells, 48, 64, true);
  }
}
