/** Constants of the game: board size, player signs, the integer codes of
    piece kinds and orientations, the move vectors and rotation deltas, the
    named piece codes and the recommended starting layouts. */
module Consts {

  /** A (row, column) offset; row 0 is the top (north) edge of the board. */
  type Vec = (int, int)

  const ROWS: int := 8
  const COLUMNS: int := 10

  /** The sign of a piece code says who owns it. */
  const FIRST: int := 1
  const SECOND: int := -1
  const PLAYER: set<int> := {FIRST, SECOND}

  /** The tens digit of a piece code says its kind. */
  const KING: int := 50
  const DEFENDER: int := 40
  const SWITCH: int := 30
  const DEFLECTOR: int := 20
  const LASER: int := 10
  const PIECE_TYPES: set<int> := {KING, DEFENDER, SWITCH, DEFLECTOR, LASER}

  /** The units digit of a piece code says its orientation. */
  const KING_ORIENT: int := 0
  const FEND_E: int := 0
  const FEND_N: int := 1
  const FEND_W: int := 2
  const FEND_S: int := 3
  const SWITCH_NESW: int := 0
  const SWITCH_NWSE: int := 1
  const FLEC_NE: int := 0
  const FLEC_NW: int := 1
  const FLEC_SW: int := 2
  const FLEC_SE: int := 3
  const LASER_HORT: int := 0
  const LASER_VERT: int := 1

  /** The eight one-square relocation vectors. */
  const N: Vec := (-1, 0)
  const NE: Vec := (-1, 1)
  const E: Vec := (0, 1)
  const SE: Vec := (1, 1)
  const S: Vec := (1, 0)
  const SW: Vec := (1, -1)
  const W: Vec := (0, -1)
  const NW: Vec := (-1, -1)

  /** A move is either a relocation by a vector or a rotation by a delta.
      The source mixes tuples and integers in one set; the two constructors
      keep them apart. */
  datatype Move = Relocate(dir: Vec) | Rotate(delta: int)

  const MOVE_MOVES: set<Move> :=
    {Relocate(N), Relocate(NE), Relocate(E), Relocate(SE),
     Relocate(S), Relocate(SW), Relocate(W), Relocate(NW)}

  /** Rotation deltas: clockwise lowers the orientation code. */
  const CW: int := -1
  const CCW: int := 1
  const ACW: int := CCW

  const ROTATION_MOVES: set<Move> := {Rotate(CW), Rotate(ACW)}

  const LEGAL_MOVES: set<Move> := MOVE_MOVES + ROTATION_MOVES

  /** Named piece codes: player * (kind + orientation). */
  const KING_1: int := 50
  const KING_2: int := -50

  const FEND_E1: int := 40
  const FEND_N1: int := 41
  const FEND_W1: int := 42
  const FEND_S1: int := 43
  const FEND_E2: int := -40
  const FEND_N2: int := -41
  const FEND_W2: int := -42
  const FEND_S2: int := -43

  const SWITCH_NESW1: int := 30
  const SWITCH_NWSE1: int := 31
  const SWITCH_NESW2: int := -30
  const SWITCH_NWSE2: int := -31

  const FLEC_NE1: int := 20
  const FLEC_NW1: int := 21
  const FLEC_SW1: int := 22
  const FLEC_SE1: int := 23
  const FLEC_NE2: int := -20
  const FLEC_NW2: int := -21
  const FLEC_SW2: int := -22
  const FLEC_SE2: int := -23

  const LASER_H1: int := 10
  const LASER_V1: int := 11
  const LASER_H2: int := -10
  const LASER_V2: int := -11

  /** Recommended starting layouts, row 0 first. */
  const ACE: seq<seq<int>> :=
    [[-11, 0,   0,  0, -43, -50, -43, -23, 0,  0],
     [  0, 0, -22,  0,   0,   0,   0,   0, 0,  0],
     [  0, 0,   0, 21,   0,   0,   0,   0, 0,  0],
     [-20, 0,  22,  0, -30, -31,   0, -23, 0, 21],
     [-23, 0,  21,  0,  31,  30,   0, -20, 0, 22],
     [  0, 0,   0,  0,   0,   0, -23,   0, 0,  0],
     [  0, 0,   0,  0,   0,   0,   0,  20, 0,  0],
     [  0, 0,  21, 41,  50,  41,   0,   0, 0, 11]]

  const CURIOSITY: seq<seq<int>> :=
    [[-11,  0,   0,  0, -43, -50, -43, -31,   0,  0],
     [  0,  0,   0,  0,   0,   0,   0,   0,   0,  0],
     [  0,  0,   0, 21,   0,   0, -20,   0,   0,  0],
     [-20, 22,   0,  0,  23, -31,   0,   0, -23, 21],
     [-23, 21,   0,  0,  31, -21,   0,   0, -20, 22],
     [  0,  0,   0, 22,   0,   0, -23,   0,   0,  0],
     [  0,  0,   0,  0,   0,   0,   0,   0,   0,  0],
     [  0,  0,  31, 41,  50,  41,   0,   0,   0, 11]]

  const GRAIL: seq<seq<int>> :=
    [[-11,   0,   0,   0, -22, -43, -23,   0,   0,   0],
     [  0,   0,   0,   0,   0, -50,   0,   0,   0,   0],
     [-20,   0,   0,   0, -22, -43, -31,   0,   0,   0],
     [-23,   0, -30,   0,  21,   0,  23,   0,   0,   0],
     [  0,   0,   0, -21,   0, -23,   0,  30,   0,  21],
     [  0,   0,   0,  31,  41,  20,   0,   0,   0,  22],
     [  0,   0,   0,   0,  50,   0,   0,   0,   0,   0],
     [  0,   0,   0,  21,  41,  20,   0,   0,   0,  11]]

  const MERCURY: seq<seq<int>> :=
    [[-11,   0,   0,   0, -22, -50, -23,   0,   0,  31],
     [  0,   0,   0,   0,   0, -43, -23,   0,   0,   0],
     [-23,   0,   0, -31,   0, -43,   0,   0,   0,   0],
     [-20,   0,   0,   0,  21,   0,   0,   0,  22,   0],
     [  0, -20,   0,   0,   0, -23,   0,   0,   0,  22],
     [  0,   0,   0,   0,  41,   0,  31,   0,   0,  21],
     [  0,   0,   0,  21,  41,   0,   0,   0,   0,   0],
     [-31,   0,   0,  21,  50,  20,   0,   0,   0,  11]]

  const SOPHIE: seq<seq<int>> :=
    [[-11,   0,   0,   0, -50,  21, -23,   0,   0,   0],
     [  0,   0,   0, -43,   0, -40,   0,   0,   0,  22],
     [-20,   0,   0,   0, -22, -23,   0,  31,   0,  21],
     [  0,   0,   0,   0,   0,   0,   0, -30,   0,   0],
     [  0,   0,  30,   0,   0,   0,   0,   0,   0,   0],
     [-23,   0, -31,   0,  21,  20,   0,   0,   0,  22],
     [-20,   0,   0,   0,  42,   0,  41,   0,   0,   0],
     [  0,   0,   0,  21, -23,  50,   0,   0,   0,  11]]

  const PRESETS: seq<seq<seq<int>>> := [ACE, CURIOSITY, GRAIL, MERCURY, SOPHIE]

  /** Every named piece code is its owner's sign times kind plus orientation. */
  lemma PieceConstantsEncode()
    ensures KING_1 == FIRST * (KING + KING_ORIENT) && KING_2 == SECOND * (KING + KING_ORIENT)
    ensures FEND_E1 == FIRST * (DEFENDER + FEND_E) && FEND_N1 == FIRST * (DEFENDER + FEND_N)
    ensures FEND_W1 == FIRST * (DEFENDER + FEND_W) && FEND_S1 == FIRST * (DEFENDER + FEND_S)
    ensures FEND_E2 == SECOND * (DEFENDER + FEND_E) && FEND_N2 == SECOND * (DEFENDER + FEND_N)
    ensures FEND_W2 == SECOND * (DEFENDER + FEND_W) && FEND_S2 == SECOND * (DEFENDER + FEND_S)
    ensures SWITCH_NESW1 == FIRST * (SWITCH + SWITCH_NESW) && SWITCH_NWSE1 == FIRST * (SWITCH + SWITCH_NWSE)
    ensures SWITCH_NESW2 == SECOND * (SWITCH + SWITCH_NESW) && SWITCH_NWSE2 == SECOND * (SWITCH + SWITCH_NWSE)
    ensures FLEC_NE1 == FIRST * (DEFLECTOR + FLEC_NE) && FLEC_NW1 == FIRST * (DEFLECTOR + FLEC_NW)
    ensures FLEC_SW1 == FIRST * (DEFLECTOR + FLEC_SW) && FLEC_SE1 == FIRST * (DEFLECTOR + FLEC_SE)
    ensures FLEC_NE2 == SECOND * (DEFLECTOR + FLEC_NE) && FLEC_NW2 == SECOND * (DEFLECTOR + FLEC_NW)
    ensures FLEC_SW2 == SECOND * (DEFLECTOR + FLEC_SW) && FLEC_SE2 == SECOND * (DEFLECTOR + FLEC_SE)
    ensures LASER_H1 == FIRST * (LASER + LASER_HORT) && LASER_V1 == FIRST * (LASER + LASER_VERT)
    ensures LASER_H2 == SECOND * (LASER + LASER_HORT) && LASER_V2 == SECOND * (LASER + LASER_VERT)
  {
  }

  /** The relocation vectors are exactly the nonzero vectors with both
      components in -1..1, and there are eight of them. */
  lemma MoveVectors()
    ensures forall v: Vec :: Relocate(v) in MOVE_MOVES <==>
              -1 <= v.0 <= 1 && -1 <= v.1 <= 1 && v != (0, 0)
    ensures forall m :: m in MOVE_MOVES ==> m.Relocate?
    ensures |MOVE_MOVES| == 8
  {
  }

  /** The rotation set has two deltas, shares nothing with the relocation
      set, and together they make ten legal moves. */
  lemma MoveSets()
    ensures CW == -1 && CCW == 1 && ACW == CCW
    ensures |ROTATION_MOVES| == 2
    ensures MOVE_MOVES !! ROTATION_MOVES
    ensures |LEGAL_MOVES| == 10
  {
    MoveVectors();
  }
}
