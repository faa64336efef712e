/** The board and piece model: packing and unpacking of piece codes,
    orientation counts, coordinate arithmetic and the 8 x 10 board value. */
module Pieces {
  import opened Consts

  type Coord = (int, int)

  /** An 8 x 10 grid of piece codes, indexed [row][column]; 0 is an empty cell. */
  type Board = seq<seq<int>>

  function Abs(x: int): nat
  {
    if x < 0 then -x else x
  }

  /** Owner of a code: the sign of the code, 0 for an empty cell. */
  function FindPlayer(piece: int): (p: int)
    ensures p == 0 <==> piece == 0
    ensures p == FIRST <==> piece > 0
    ensures p == SECOND <==> piece < 0
  {
    if piece > 0 then FIRST
    else if piece < 0 then SECOND
    else 0
  }

  /** Kind of a code: its tens digit, times ten. */
  function FindPiece(piece: int): int
  {
    (Abs(piece) / 10) * 10
  }

  /** Orientation of a code: its units digit. */
  function FindOrient(piece: int): int
  {
    Abs(piece) % 10
  }

  /** Packs owner, kind and orientation into one code, player * (kind +
      orientation); since the player is +1 or -1 this is the sum or its
      negation. The three decoders give the three parts back. */
  function MakePiece(player: int, piece: int, orientation: int): (code: int)
    requires player in PLAYER
    requires piece in PIECE_TYPES
    requires 0 <= orientation <= 3
    ensures FindPlayer(code) == player
    ensures FindPiece(code) == piece
    ensures FindOrient(code) == orientation
  {
    if player == FIRST then piece + orientation else -(piece + orientation)
  }

  /** Number of distinct orientations of a kind. */
  function NumOrientations(pieceType: int): (n: int)
    requires pieceType in PIECE_TYPES
    ensures 1 <= n <= 4
  {
    if pieceType == LASER then 2
    else if pieceType == DEFLECTOR then 4
    else if pieceType == SWITCH then 2
    else if pieceType == DEFENDER then 4
    else 1
  }

  /** A code that stands for a real piece: a known kind and an orientation
      that kind has. */
  predicate IsPiece(x: int)
  {
    x != 0 && FindPiece(x) in PIECE_TYPES && FindOrient(x) < NumOrientations(FindPiece(x))
  }

  /** What a board cell may hold. */
  predicate ValidCell(x: int)
  {
    x == 0 || IsPiece(x)
  }

  /** The codes of the named pieces, and 0 for an empty cell. */
  predicate NamedCode(x: int)
  {
    x in {0, KING_1, KING_2, FEND_E1, FEND_N1, FEND_W1, FEND_S1, FEND_E2, FEND_N2, FEND_W2, FEND_S2,
          SWITCH_NESW1, SWITCH_NWSE1, SWITCH_NESW2, SWITCH_NWSE2,
          FLEC_NE1, FLEC_NW1, FLEC_SW1, FLEC_SE1, FLEC_NE2, FLEC_NW2, FLEC_SW2, FLEC_SE2,
          LASER_H1, LASER_V1, LASER_H2, LASER_V2}
  }

  /** Every named piece constant may stand on a board. */
  lemma NamedCodesValid(x: int)
    requires NamedCode(x)
    ensures ValidCell(x)
  {
  }

  /** Every real piece code is the packing of its own three parts. */
  lemma PieceCodeRoundTrip(x: int)
    requires IsPiece(x)
    ensures MakePiece(FindPlayer(x), FindPiece(x), FindOrient(x)) == x
  {
    var a := Abs(x);
    assert a == (a / 10) * 10 + a % 10;
  }

  /** The orientation constants are in range for their kinds. */
  lemma OrientationCodesInRange()
    ensures 0 <= KING_ORIENT < NumOrientations(KING)
    ensures 0 <= FEND_E < NumOrientations(DEFENDER) && 0 <= FEND_N < NumOrientations(DEFENDER)
    ensures 0 <= FEND_W < NumOrientations(DEFENDER) && 0 <= FEND_S < NumOrientations(DEFENDER)
    ensures 0 <= FLEC_NE < NumOrientations(DEFLECTOR) && 0 <= FLEC_NW < NumOrientations(DEFLECTOR)
    ensures 0 <= FLEC_SW < NumOrientations(DEFLECTOR) && 0 <= FLEC_SE < NumOrientations(DEFLECTOR)
    ensures 0 <= SWITCH_NESW < NumOrientations(SWITCH) && 0 <= SWITCH_NWSE < NumOrientations(SWITCH)
    ensures 0 <= LASER_HORT < NumOrientations(LASER) && 0 <= LASER_VERT < NumOrientations(LASER)
  {
  }

  /** The rotation of one piece code by a delta, as make_move computes it:
      owner and kind stay, the orientation moves modulo the kind's count. */
  function RotateCode(x: int, delta: int): (r: int)
    requires IsPiece(x)
    ensures IsPiece(r)
    ensures FindPlayer(r) == FindPlayer(x) && FindPiece(r) == FindPiece(x)
    ensures FindOrient(r) == (FindOrient(x) + delta) % NumOrientations(FindPiece(x))
  {
    MakePiece(FindPlayer(x), FindPiece(x), (FindOrient(x) + delta) % NumOrientations(FindPiece(x)))
  }

  /** k rotations by the same delta. */
  function RotateTimes(x: int, delta: int, k: nat): (r: int)
    requires IsPiece(x)
    ensures IsPiece(r)
  {
    if k == 0 then x else RotateCode(RotateTimes(x, delta, k - 1), delta)
  }

  /** Reducing before adding a unit delta does not change the residue. */
  lemma ModStep(a: int, d: int, n: int)
    requires n == 1 || n == 2 || n == 4
    requires d == -1 || d == 1
    ensures ((a % n) + d) % n == (a + d) % n
  {
    if n == 2 {
      ModStepBy2(a, d);
    } else if n == 4 {
      ModStepBy4(a, d);
    }
  }

  lemma ModStepBy2(a: int, d: int)
    requires d == -1 || d == 1
    ensures ((a % 2) + d) % 2 == (a + d) % 2
  {
    assert a == (a / 2) * 2 + a % 2;
  }

  lemma ModStepBy4(a: int, d: int)
    requires d == -1 || d == 1
    ensures ((a % 4) + d) % 4 == (a + d) % 4
  {
    assert a == (a / 4) * 4 + a % 4;
  }

  /** The net change of orientation after k rotations by delta. */
  function Net(delta: int, k: nat): int
  {
    if delta == CCW then k else -(k as int)
  }

  /** One more rotation moves a residue of the orientation by delta. */
  lemma OrientStep(y: int, delta: int, m: int)
    requires IsPiece(y) && (delta == CW || delta == CCW)
    requires FindOrient(y) == m % NumOrientations(FindPiece(y))
    ensures FindOrient(RotateCode(y, delta)) == (m + delta) % NumOrientations(FindPiece(y))
  {
    ModStep(m, delta, NumOrientations(FindPiece(y)));
  }

  lemma {:induction false} RotateTimesOrient(x: int, delta: int, k: nat)
    requires IsPiece(x)
    requires delta == CW || delta == CCW
    ensures FindPlayer(RotateTimes(x, delta, k)) == FindPlayer(x)
    ensures FindPiece(RotateTimes(x, delta, k)) == FindPiece(x)
    ensures FindOrient(RotateTimes(x, delta, k))
            == (FindOrient(x) + Net(delta, k)) % NumOrientations(FindPiece(x))
  {
    if k == 0 {
      assert FindOrient(x) < NumOrientations(FindPiece(x));
    } else {
      RotateTimesOrient(x, delta, k - 1);
      OrientStep(RotateTimes(x, delta, k - 1), delta, FindOrient(x) + Net(delta, k - 1));
    }
  }

  /** Two real codes with the same three parts are the same code. */
  lemma SameParts(x: int, y: int)
    requires IsPiece(x) && IsPiece(y)
    requires FindPlayer(x) == FindPlayer(y) && FindPiece(x) == FindPiece(y)
    requires FindOrient(x) == FindOrient(y)
    ensures x == y
  {
    PieceCodeRoundTrip(x);
    PieceCodeRoundTrip(y);
  }

  lemma ModCycle(o: int, n: int, delta: int)
    requires n == 1 || n == 2 || n == 4
    requires 0 <= o < n
    requires delta == -1 || delta == 1
    ensures (o + Net(delta, n)) % n == o
  {
    if n == 1 {
    } else if n == 2 {
    } else {
    }
  }

  /** Rotating a piece as many times as it has orientations, in one
      direction, gives the piece back. */
  lemma RotationCycle(x: int, delta: int)
    requires IsPiece(x)
    requires delta == CW || delta == CCW
    ensures RotateTimes(x, delta, NumOrientations(FindPiece(x))) == x
  {
    var n := NumOrientations(FindPiece(x));
    var r := RotateTimes(x, delta, n);
    RotateTimesOrient(x, delta, n);
    ModCycle(FindOrient(x), n, delta);
    SameParts(r, x);
  }

  /** Turning an orientation one step forward and back, or back and
      forward, gives it back. */
  lemma TurnBack(o: int, n: int)
    requires n == 1 || n == 2 || n == 4
    requires 0 <= o < n
    ensures ((o + 1) % n - 1) % n == o
    ensures ((o - 1) % n + 1) % n == o
  {
    if n == 1 {
    } else if n == 2 {
    } else {
    }
  }

  /** A clockwise rotation undoes a counter-clockwise one and back. */
  lemma RotationInverse(x: int)
    requires IsPiece(x)
    ensures RotateCode(RotateCode(x, CCW), CW) == x
    ensures RotateCode(RotateCode(x, CW), CCW) == x
  {
    var n := NumOrientations(FindPiece(x));
    var o := FindOrient(x);
    TurnBack(o, n);
    var y := RotateCode(x, CCW);
    assert FindOrient(y) == (o + 1) % n;
    SameParts(RotateCode(y, CW), x);
    var z := RotateCode(x, CW);
    assert FindOrient(z) == (o - 1) % n;
    SameParts(RotateCode(z, CCW), x);
  }

  /** Componentwise addition of a coordinate and a vector. */
  function TupleAdd(a: (int, int), b: (int, int)): (int, int)
  {
    (a.0 + b.0, a.1 + b.1)
  }

  lemma DirectionSums()
    ensures TupleAdd(N, E) == NE && TupleAdd(W, S) == SW && TupleAdd(N, S) == (0, 0)
  {
  }

  predicate InBounds(c: Coord)
  {
    0 <= c.0 < ROWS && 0 <= c.1 < COLUMNS
  }

  /** The board has the right shape and holds only real codes or 0. */
  predicate IsBoard(b: Board)
  {
    |b| == ROWS &&
    (forall i :: 0 <= i < ROWS ==> |b[i]| == COLUMNS) &&
    (forall i, j :: 0 <= i < ROWS && 0 <= j < COLUMNS ==> ValidCell(b[i][j]))
  }

  function Cell(b: Board, c: Coord): int
    requires IsBoard(b) && InBounds(c)
  {
    b[c.0][c.1]
  }

  /** The board with one cell replaced. */
  function Put(b: Board, c: Coord, v: int): (r: Board)
    requires IsBoard(b) && InBounds(c) && ValidCell(v)
    ensures IsBoard(r)
    ensures Cell(r, c) == v
    ensures forall d :: InBounds(d) && d != c ==> Cell(r, d) == Cell(b, d)
  {
    b[c.0 := b[c.0][c.1 := v]]
  }

  /** Both lasers on their home corners: Second's at (0,0), First's at (7,9). */
  predicate LasersHome(b: Board)
    requires IsBoard(b)
  {
    b[0][0] in {LASER_H2, LASER_V2} && b[ROWS - 1][COLUMNS - 1] in {LASER_H1, LASER_V1}
  }

  /** The board with only the two lasers, both pointing vertically. */
  function EmptyBoard(): (b: Board)
    ensures IsBoard(b) && LasersHome(b)
    ensures b[0][0] == LASER_V2 && b[ROWS - 1][COLUMNS - 1] == LASER_V1
    ensures forall c :: InBounds(c) && c != (0, 0) && c != (ROWS - 1, COLUMNS - 1) ==> Cell(b, c) == 0
  {
    seq(ROWS, i => seq(COLUMNS, j =>
      if i == 0 && j == 0 then LASER_V2
      else if i == ROWS - 1 && j == COLUMNS - 1 then LASER_V1
      else 0))
  }
}
