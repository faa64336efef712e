/** The rules of one game, as functions on game-state values: the move
    validator, the beam simulator and the composed turn. The class in module
    Engine updates a board in place and is proved to follow these functions. */
module Rules {
  import opened Consts
  import opened Pieces
  import opened Wrappers

  /** The board, whose turn it is, and the winner (0 while the game goes on). */
  datatype GameState = GameState(board: Board, turn: int, winner: int)

  ghost predicate ValidState(s: GameState)
  {
    IsBoard(s.board) && s.turn in PLAYER && s.winner in {0, FIRST, SECOND}
  }

  /** True when some cell of the layout holds the code v. */
  predicate Contains(b: seq<seq<int>>, v: int)
  {
    exists i, j :: 0 <= i < |b| && 0 <= j < |b[i]| && b[i][j] == v
  }

  /** The checks the constructor makes of a layout and a first player. */
  predicate ValidSetup(layout: seq<seq<int>>, playerToMove: int)
  {
    playerToMove in PLAYER &&
    |layout| == ROWS && (forall i :: 0 <= i < ROWS ==> |layout[i]| == COLUMNS) &&
    layout[0][0] in {-11, -10} &&
    layout[ROWS - 1][COLUMNS - 1] in {10, 11} &&
    Contains(layout, KING_1) &&
    Contains(layout, KING_2)
  }

  /** While nobody has won, both kings are on the board. */
  predicate KingsOrOver(s: GameState)
  {
    s.winner != 0 || (Contains(s.board, KING_1) && Contains(s.board, KING_2))
  }

  /** The player a call acts for: the explicit one, else the stored turn. */
  function Mover(s: GameState, player: Option<int>): int
  {
    if player.Some? then player.value else s.turn
  }

  predicate PlayerArg(player: Option<int>)
  {
    player.None? || player.value in PLAYER
  }

  /** The no-entry squares of an explicit mover: First may not enter
      column 0 nor (0,8), (7,8); Second may not enter column 9 nor (0,1),
      (7,1). Without an explicit mover nothing is forbidden. */
  predicate Forbidden(player: Option<int>, dest: Coord)
  {
    (player == Some(FIRST) &&
     (dest.1 == 0 || dest == (0, COLUMNS - 2) || dest == (ROWS - 1, COLUMNS - 2))) ||
    (player == Some(SECOND) &&
     (dest.1 == COLUMNS - 1 || dest == (0, 1) || dest == (ROWS - 1, 1)))
  }

  /** The board with the contents of two cells exchanged. */
  function Swap(b: Board, a: Coord, c: Coord): (r: Board)
    requires IsBoard(b) && InBounds(a) && InBounds(c)
    ensures IsBoard(r)
    ensures Cell(r, a) == Cell(b, c) && Cell(r, c) == Cell(b, a)
    ensures forall d :: InBounds(d) && d != a && d != c ==> Cell(r, d) == Cell(b, d)
  {
    Put(Put(b, a, Cell(b, c)), c, Cell(b, a))
  }

  datatype MoveResult = MoveResult(state: GameState, made: bool)

  /** The move validator. On success the move is made; on failure the board
      is left as it was. Either way the stored turn becomes the explicit
      mover when one is given. */
  function MakeMove(s: GameState, loc: Coord, m: Move, player: Option<int>): (r: MoveResult)
    requires ValidState(s) && InBounds(loc) && m in LEGAL_MOVES && PlayerArg(player)
    ensures ValidState(r.state)
  {
    var turn := Mover(s, player);
    var s1 := s.(turn := turn);
    var x := Cell(s.board, loc);
    if x == 0 then MoveResult(s1, false)
    else if FindPlayer(x) != turn then MoveResult(s1, false)
    else if m.Rotate? then
      MoveResult(s1.(board := Put(s.board, loc, RotateCode(x, m.delta))), true)
    else
      var dest := TupleAdd(loc, m.dir);
      if FindPiece(x) == LASER then MoveResult(s1, false)
      else if !InBounds(dest) then MoveResult(s1, false)
      else if Forbidden(player, dest) then MoveResult(s1, false)
      else if Cell(s.board, dest) == 0 then
        MoveResult(s1.(board := Swap(s.board, loc, dest)), true)
      else if FindPiece(x) == SWITCH && FindPiece(Cell(s.board, dest)) in {DEFLECTOR, DEFENDER} then
        MoveResult(s1.(board := Swap(s.board, loc, dest)), true)
      else MoveResult(s1, false)
  }

  /** What any move does: the stored turn becomes the mover and the winner
      is untouched; a failed move leaves the board as it was; a made move
      moved the mover's own piece. */
  lemma MakeMoveOutcome(s: GameState, loc: Coord, m: Move, player: Option<int>)
    requires ValidState(s) && InBounds(loc) && m in LEGAL_MOVES && PlayerArg(player)
    ensures var r := MakeMove(s, loc, m, player);
            r.state.turn == Mover(s, player) && r.state.winner == s.winner &&
            (!r.made ==> r.state.board == s.board) &&
            (r.made ==> Cell(s.board, loc) != 0 && FindPlayer(Cell(s.board, loc)) == Mover(s, player))
  {
  }

  /** A move keeps both lasers home: a laser can turn but never relocate,
      and nothing can swap onto it. */
  lemma MakeMoveKeepsLasers(s: GameState, loc: Coord, m: Move, player: Option<int>)
    requires ValidState(s) && InBounds(loc) && m in LEGAL_MOVES && PlayerArg(player)
    ensures LasersHome(s.board) ==> LasersHome(MakeMove(s, loc, m, player).state.board)
  {
    var r := MakeMove(s, loc, m, player);
    if LasersHome(s.board) && r.made {
      var x := Cell(s.board, loc);
      if m.Rotate? {
        var y := RotateCode(x, m.delta);
        assert Cell(r.state.board, loc) == y;
        if loc == (0, 0) || loc == (ROWS - 1, COLUMNS - 1) {
          assert FindPiece(y) == LASER && FindPlayer(y) == FindPlayer(x);
          PieceCodeRoundTrip(y);
        }
      } else {
        var dest := TupleAdd(loc, m.dir);
        assert FindPiece(x) != LASER && InBounds(dest);
        assert Cell(s.board, dest) == 0 || FindPiece(Cell(s.board, dest)) in {DEFLECTOR, DEFENDER};
        assert r.state.board == Swap(s.board, loc, dest);
      }
    }
  }

  /** While nobody has won, a move keeps both kings on the board. */
  lemma MakeMoveKeepsKings(s: GameState, loc: Coord, m: Move, player: Option<int>)
    requires ValidState(s) && InBounds(loc) && m in LEGAL_MOVES && PlayerArg(player)
    ensures KingsOrOver(s) ==> KingsOrOver(MakeMove(s, loc, m, player).state)
  {
    var x := Cell(s.board, loc);
    if x != 0 && FindPlayer(x) == Mover(s, player) {
      if m.Rotate? {
        RotateKeepsKings(s, loc, m.delta);
      } else {
        var dest := TupleAdd(loc, m.dir);
        if InBounds(dest) {
          SwapKeepsKings(s, loc, dest);
        }
      }
    }
  }

  /** A move changes no cell other than the piece's square and, for a
      relocation, its destination. */
  lemma MakeMoveFrame(s: GameState, loc: Coord, m: Move, player: Option<int>)
    requires ValidState(s) && InBounds(loc) && m in LEGAL_MOVES && PlayerArg(player)
    ensures var r := MakeMove(s, loc, m, player);
            forall c :: InBounds(c) && c != loc && (m.Relocate? ==> c != TupleAdd(loc, m.dir))
              ==> Cell(r.state.board, c) == Cell(s.board, c)
  {
  }

  lemma BoardContains(b: Board, c: Coord, v: int)
    requires IsBoard(b) && InBounds(c) && Cell(b, c) == v
    ensures Contains(b, v)
  {
    assert b[c.0][c.1] == v;
  }

  lemma SwapKeepsKings(s: GameState, a: Coord, c: Coord)
    requires ValidState(s) && InBounds(a) && InBounds(c)
    ensures KingsOrOver(s) ==> KingsOrOver(s.(board := Swap(s.board, a, c)))
  {
    if s.winner == 0 && KingsOrOver(s) {
      var b := Swap(s.board, a, c);
      forall v | v in {KING_1, KING_2}
        ensures Contains(b, v)
      {
        var i, j :| 0 <= i < |s.board| && 0 <= j < |s.board[i]| && s.board[i][j] == v;
        var k := (i, j);
        if k == a {
          BoardContains(b, c, v);
        } else if k == c {
          BoardContains(b, a, v);
        } else {
          BoardContains(b, k, v);
        }
      }
    }
  }

  lemma RotateKeepsKings(s: GameState, a: Coord, delta: int)
    requires ValidState(s) && InBounds(a) && Cell(s.board, a) != 0
    ensures KingsOrOver(s) ==> KingsOrOver(s.(board := Put(s.board, a, RotateCode(Cell(s.board, a), delta))))
  {
    var x := Cell(s.board, a);
    if s.winner == 0 && KingsOrOver(s) {
      var b := Put(s.board, a, RotateCode(x, delta));
      forall v | v in {KING_1, KING_2}
        ensures Contains(b, v)
      {
        var i, j :| 0 <= i < |s.board| && 0 <= j < |s.board[i]| && s.board[i][j] == v;
        var k := (i, j);
        if k == a {
          assert FindPiece(x) == KING && NumOrientations(KING) == 1;
          SameParts(RotateCode(x, delta), x);
          BoardContains(b, a, v);
        } else {
          BoardContains(b, k, v);
        }
      }
    }
  }

  // ---------------------------------------------------------------- the beam

  predicate Cardinal(d: Vec)
  {
    d == N || d == E || d == S || d == W
  }

  function Neg(d: Vec): Vec
  {
    (-d.0, -d.1)
  }

  /** What a cell does to a beam entering it: the beam goes on in a new
      direction, or it stops there, capturing the piece or not. */
  datatype Hit = Pass(dir: Vec) | Halt(captured: bool)

  /** The reflection and capture tables of the shot, for a beam travelling
      in direction d that reaches a cell holding x. */
  function Interact(x: int, d: Vec): Hit
    requires ValidCell(x)
  {
    var k := FindPiece(x);
    var o := FindOrient(x);
    if k == DEFLECTOR then
      if o == FLEC_NE then
        (if d == W then Pass(N) else if d == S then Pass(E) else Halt(true))
      else if o == FLEC_NW then
        (if d == E then Pass(N) else if d == S then Pass(W) else Halt(true))
      else if o == FLEC_SW then
        (if d == E then Pass(S) else if d == N then Pass(W) else Halt(true))
      else
        (if d == N then Pass(E) else if d == W then Pass(S) else Halt(true))
    else if k == SWITCH then
      if o == SWITCH_NESW then
        (if d == N then Pass(W) else if d == E then Pass(S)
         else if d == S then Pass(E) else if d == W then Pass(N) else Pass(d))
      else
        (if d == N then Pass(E) else if d == E then Pass(N)
         else if d == S then Pass(W) else if d == W then Pass(S) else Pass(d))
    else if k == DEFENDER then
      if o == FEND_E then Halt(d != W)
      else if o == FEND_N then Halt(d != S)
      else if o == FEND_W then Halt(d != E)
      else Halt(d != N)
    else if k == KING then Halt(true)
    else Pass(d)
  }

  /** What each kind does to a beam: a king is always taken, a defender
      always stops it, a switch always turns it, lasers and empty cells let
      it through, only deflectors, defenders and kings are ever taken, and a
      beam travelling north, east, south or west keeps doing so. */
  lemma InteractOutcomes(x: int, d: Vec)
    requires ValidCell(x)
    ensures var h := Interact(x, d);
            (Cardinal(d) && h.Pass? ==> Cardinal(h.dir)) &&
            (FindPiece(x) == KING ==> h == Halt(true)) &&
            (FindPiece(x) == DEFENDER ==> h.Halt?) &&
            (FindPiece(x) == SWITCH ==> h.Pass?) &&
            (FindPiece(x) == LASER || x == 0 ==> h == Pass(d)) &&
            (h == Halt(true) ==> FindPiece(x) in {DEFLECTOR, DEFENDER, KING}) &&
            (h == Halt(false) ==> FindPiece(x) == DEFENDER)
  {
  }

  /** The mirror along a diagonal: the NE-SW diagonal transposes a direction,
      the NW-SE diagonal transposes and reverses it. */
  function Mirror(alongNESW: bool, d: Vec): Vec
  {
    if alongNESW then (d.1, d.0) else (-d.1, -d.0)
  }

  /** The two sides a deflector's mirror faces. */
  function MirrorFaces(o: int): (Vec, Vec)
  {
    if o == FLEC_NE then (N, E)
    else if o == FLEC_NW then (N, W)
    else if o == FLEC_SW then (S, W)
    else (S, E)
  }

  /** The side a defender's shield faces. */
  function ShieldFace(o: int): Vec
  {
    if o == FEND_E then E
    else if o == FEND_N then N
    else if o == FEND_W then W
    else S
  }

  /** A switch is a two-sided mirror along its diagonal. */
  lemma SwitchIsMirror(x: int, d: Vec)
    requires IsPiece(x) && FindPiece(x) == SWITCH && Cardinal(d)
    ensures Interact(x, d) == Pass(Mirror(FindOrient(x) == SWITCH_NESW, d))
  {
  }

  /** A deflector reflects a beam that arrives from one of the two sides its
      mirror faces, out through the other side, turning it exactly as a
      switch along the same diagonal would; a beam from any other side
      captures it. */
  lemma DeflectorIsOneSidedMirror(x: int, d: Vec)
    requires IsPiece(x) && FindPiece(x) == DEFLECTOR && Cardinal(d)
    ensures var o := FindOrient(x);
            var faces := MirrorFaces(o);
            Interact(x, d) ==
              (if Neg(d) == faces.0 then Pass(faces.1)
               else if Neg(d) == faces.1 then Pass(faces.0)
               else Halt(true))
    ensures var o := FindOrient(x);
            Interact(x, d).Pass? ==>
              Interact(x, d).dir == Mirror(o == FLEC_NE || o == FLEC_SW, d)
  {
  }

  /** A defender always stops the beam, and survives only a beam that
      arrives from the side its shield faces. */
  lemma DefenderShield(x: int, d: Vec)
    requires IsPiece(x) && FindPiece(x) == DEFENDER && Cardinal(d)
    ensures Interact(x, d) == Halt(Neg(d) != ShieldFace(FindOrient(x)))
  {
  }

  /** Light paths reverse: a beam sent back the way one came out of a cell
      leaves it the way the first one came in. */
  lemma {:induction false} InteractReversible(x: int, d: Vec)
    requires ValidCell(x) && Cardinal(d) && Interact(x, d).Pass?
    ensures Interact(x, Neg(Interact(x, d).dir)) == Pass(Neg(d))
  {
    if FindPiece(x) == DEFLECTOR {
      DeflectorIsOneSidedMirror(x, d);
      var e := Interact(x, d).dir;
      assert Cardinal(e);
      DeflectorIsOneSidedMirror(x, Neg(e));
    } else if FindPiece(x) == SWITCH {
      SwitchIsMirror(x, d);
      var e := Interact(x, d).dir;
      SwitchIsMirror(x, Neg(e));
    }
  }

  /** Two beams leaving a cell the same way entered it the same way. */
  lemma InteractInjective(x: int, d1: Vec, d2: Vec)
    requires ValidCell(x) && Cardinal(d1) && Cardinal(d2)
    requires Interact(x, d1).Pass? && Interact(x, d1) == Interact(x, d2)
    ensures d1 == d2
  {
    InteractReversible(x, d1);
    InteractReversible(x, d2);
  }

  /** A beam head: the cell it is about to enter and its direction. */
  datatype Ray = Ray(at: Coord, dir: Vec)

  datatype End = OffBoard | Blocked | Captured | OutOfFuel

  /** The cells a beam visits, in order, and why it stopped. */
  datatype Beam = Beam(path: seq<Coord>, end: End)

  predicate Adjacent(a: Coord, c: Coord)
  {
    Cardinal((c.0 - a.0, c.1 - a.1))
  }

  function Last<T>(s: seq<T>): T
    requires |s| > 0
  {
    s[|s| - 1]
  }

  /** The beam from r, visiting at most fuel cells. */
  function Walk(b: Board, r: Ray, fuel: nat): Beam
    requires IsBoard(b)
    decreases fuel
  {
    if !InBounds(r.at) then Beam([], OffBoard)
    else if fuel == 0 then Beam([], OutOfFuel)
    else
      match Interact(Cell(b, r.at), r.dir)
      case Halt(c) => Beam([r.at], if c then Captured else Blocked)
      case Pass(d) =>
        var w := Walk(b, Ray(TupleAdd(r.at, d), d), fuel - 1);
        Beam([r.at] + w.path, w.end)
  }

  /** The walk starts where the beam is, keeps to the board, moves one cell
      north, east, south or west at a time, and stops at a piece only when
      that piece takes the beam. */
  lemma {:induction false} WalkShape(b: Board, r: Ray, fuel: nat)
    requires IsBoard(b)
    ensures var w := Walk(b, r, fuel);
            |w.path| <= fuel &&
            (forall k :: 0 <= k < |w.path| ==> InBounds(w.path[k])) &&
            (InBounds(r.at) && fuel > 0 ==> |w.path| > 0 && w.path[0] == r.at) &&
            (!InBounds(r.at) ==> w == Beam([], OffBoard)) &&
            (Cardinal(r.dir) ==> forall k :: 0 <= k < |w.path| - 1 ==> Adjacent(w.path[k], w.path[k + 1])) &&
            (w.end == Captured ==>
               |w.path| > 0 && FindPiece(Cell(b, Last(w.path))) in {DEFLECTOR, DEFENDER, KING}) &&
            (w.end == Blocked ==> |w.path| > 0 && FindPiece(Cell(b, Last(w.path))) == DEFENDER)
    decreases fuel
  {
    if InBounds(r.at) && fuel > 0 {
      InteractOutcomes(Cell(b, r.at), r.dir);
      match Interact(Cell(b, r.at), r.dir)
      case Halt(c) =>
      case Pass(d) =>
        var next := Ray(TupleAdd(r.at, d), d);
        WalkShape(b, next, fuel - 1);
        var w := Walk(b, next, fuel - 1);
        if |w.path| > 0 {
          assert w.path[0] == next.at;
        }
    }
  }

  /** Enough fuel for a beam to visit every cell in every direction. */
  const MAX_BEAM: nat := ROWS * COLUMNS * 4

  /** Where the shooter's laser sits and which way it fires: Second's from
      the top-left corner east or south, First's from the bottom-right corner
      west or north, by the orientation of the piece in that corner. */
  function LaserStart(b: Board, shooter: int): (r: Ray)
    requires IsBoard(b)
    ensures InBounds(r.at) && Cardinal(r.dir)
    ensures shooter == SECOND ==> r.at == (0, 0) && (r.dir == E || r.dir == S)
    ensures shooter != SECOND ==> r.at == (ROWS - 1, COLUMNS - 1) && (r.dir == W || r.dir == N)
    ensures shooter == SECOND ==> (r.dir == E <==> FindOrient(b[0][0]) == LASER_HORT)
    ensures shooter != SECOND ==> (r.dir == W <==> FindOrient(b[ROWS - 1][COLUMNS - 1]) == LASER_HORT)
  {
    if shooter == SECOND then
      Ray((0, 0), if FindOrient(b[0][0]) == LASER_HORT then E else S)
    else
      Ray((ROWS - 1, COLUMNS - 1), if FindOrient(b[ROWS - 1][COLUMNS - 1]) == LASER_HORT then W else N)
  }

  /** The state after a shot, the piece it destroyed and the beam's path. */
  datatype Shot = Shot(state: GameState, destroyed: Option<int>, path: seq<Coord>)

  /** A shot by the mover. With capture, the piece the beam stops at is
      removed when the beam captures it, and a captured king decides the
      winner; without capture the shot is only a preview of the path. Once
      the game is won, a shot only records the mover as the stored turn. */
  function Fire(s: GameState, player: Option<int>, capture: bool): (r: Shot)
    requires ValidState(s) && PlayerArg(player)
    ensures ValidState(r.state)
  {
    var t := Mover(s, player);
    if s.winner != 0 then Shot(s.(turn := t), None, [])
    else
      var beam := Walk(s.board, LaserStart(s.board, t), MAX_BEAM);
      WalkShape(s.board, LaserStart(s.board, t), MAX_BEAM);
      if capture && beam.end == Captured then
        var at := Last(beam.path);
        var x := Cell(s.board, at);
        var w := if FindPiece(x) == KING then -FindPlayer(x) else s.winner;
        Shot(GameState(Put(s.board, at, 0), -t, w), Some(x), beam.path)
      else
        Shot(s.(turn := -t), None, beam.path)
  }

  /** What a shot does. Once the game is won it changes only the stored
      turn and has no path. Otherwise the path starts at the shooter's laser
      and moves one cell at a time on the board, the turn passes, and at most
      the one piece the beam stops at is removed (a deflector, defender or
      king, only in capture mode); the winner changes exactly when that
      piece is a king, to its owner's opponent. Lasers stay home and, while
      nobody has won, both kings stay on the board. */
  lemma FireOutcome(s: GameState, player: Option<int>, capture: bool)
    requires ValidState(s) && PlayerArg(player)
    ensures var r := Fire(s, player, capture);
            (s.winner != 0 ==> r == Shot(s.(turn := Mover(s, player)), None, [])) &&
            (s.winner == 0 ==> r.state.turn == -Mover(s, player)) &&
            (s.winner == 0 ==> |r.path| > 0 && r.path[0] == LaserStart(s.board, Mover(s, player)).at) &&
            (forall k :: 0 <= k < |r.path| ==> InBounds(r.path[k])) &&
            (forall k :: 0 <= k < |r.path| - 1 ==> Adjacent(r.path[k], r.path[k + 1]))
    ensures var r := Fire(s, player, capture);
            (!capture ==> r.destroyed.None? && r.state.winner == s.winner) &&
            (r.destroyed.None? ==> r.state.board == s.board) &&
            (r.destroyed.Some? ==>
               |r.path| > 0 && InBounds(Last(r.path)) && r.destroyed.value == Cell(s.board, Last(r.path)) &&
               FindPiece(r.destroyed.value) in {DEFLECTOR, DEFENDER, KING} &&
               r.state.board == Put(s.board, Last(r.path), 0))
    ensures var r := Fire(s, player, capture);
            (r.destroyed.Some? && FindPiece(r.destroyed.value) == KING ==>
               r.state.winner == -FindPlayer(r.destroyed.value)) &&
            (r.state.winner != s.winner ==> r.destroyed.Some? && FindPiece(r.destroyed.value) == KING)
    ensures var r := Fire(s, player, capture);
            (LasersHome(s.board) ==> LasersHome(r.state.board)) &&
            (KingsOrOver(s) ==> KingsOrOver(r.state))
  {
    var t := Mover(s, player);
    if s.winner == 0 {
      var start := LaserStart(s.board, t);
      WalkShape(s.board, start, MAX_BEAM);
      var beam := Walk(s.board, start, MAX_BEAM);
      if capture && beam.end == Captured {
        ClearKeepsKings(s, Last(beam.path));
      }
    }
  }

  /** Clearing a cell that holds no king keeps both kings on the board. */
  lemma ClearKeepsKings(s: GameState, a: Coord)
    requires ValidState(s) && InBounds(a)
    ensures FindPiece(Cell(s.board, a)) != KING && Contains(s.board, KING_1) ==>
              Contains(Put(s.board, a, 0), KING_1)
    ensures FindPiece(Cell(s.board, a)) != KING && Contains(s.board, KING_2) ==>
              Contains(Put(s.board, a, 0), KING_2)
  {
    var b := Put(s.board, a, 0);
    forall v | v in {KING_1, KING_2} && Contains(s.board, v) && FindPiece(Cell(s.board, a)) != KING
      ensures Contains(b, v)
    {
      var i, j :| 0 <= i < |s.board| && 0 <= j < |s.board[i]| && s.board[i][j] == v;
      assert (i, j) != a;
      BoardContains(b, (i, j), v);
    }
  }

  // ------------------------------------------------------ what MakeMove does

  /** A move on an empty cell or on the opponent's piece never happens. */
  lemma MoveNeedsOwnPiece(s: GameState, loc: Coord, m: Move, player: Option<int>)
    requires ValidState(s) && InBounds(loc) && m in LEGAL_MOVES && PlayerArg(player)
    requires Cell(s.board, loc) == 0 || FindPlayer(Cell(s.board, loc)) != Mover(s, player)
    ensures !MakeMove(s, loc, m, player).made
    ensures MakeMove(s, loc, m, player).state == s.(turn := Mover(s, player))
  {
  }

  /** Rotating one's own piece always succeeds and turns only that piece. */
  lemma RotationAlwaysMade(s: GameState, loc: Coord, delta: int, player: Option<int>)
    requires ValidState(s) && InBounds(loc) && Rotate(delta) in ROTATION_MOVES && PlayerArg(player)
    requires Cell(s.board, loc) != 0 && FindPlayer(Cell(s.board, loc)) == Mover(s, player)
    ensures MakeMove(s, loc, Rotate(delta), player) ==
            MoveResult(GameState(Put(s.board, loc, RotateCode(Cell(s.board, loc), delta)),
                                 Mover(s, player), s.winner), true)
  {
  }

  /** When a relocation is made: the mover's own non-laser piece steps to an
      in-bounds square that is not forbidden to it, which is empty or (for a
      switch) holds a deflector or defender; the two cells are exchanged. */
  lemma RelocationMadeExactly(s: GameState, loc: Coord, v: Vec, player: Option<int>)
    requires ValidState(s) && InBounds(loc) && Relocate(v) in MOVE_MOVES && PlayerArg(player)
    ensures var r := MakeMove(s, loc, Relocate(v), player);
            var x := Cell(s.board, loc);
            var dest := TupleAdd(loc, v);
            r.made <==>
              (x != 0 && FindPlayer(x) == Mover(s, player) && FindPiece(x) != LASER &&
               InBounds(dest) && !Forbidden(player, dest) &&
               (Cell(s.board, dest) == 0 ||
                (FindPiece(x) == SWITCH && FindPiece(Cell(s.board, dest)) in {DEFLECTOR, DEFENDER})))
    ensures var r := MakeMove(s, loc, Relocate(v), player);
            var dest := TupleAdd(loc, v);
            r.made ==> InBounds(dest) && r.state.board == Swap(s.board, loc, dest)
  {
  }

  /** A made relocation moves the piece and leaves what was at the
      destination (nothing, or the displaced piece) where the piece was. */
  lemma RelocationMovesPiece(s: GameState, loc: Coord, v: Vec, player: Option<int>)
    requires ValidState(s) && InBounds(loc) && Relocate(v) in MOVE_MOVES && PlayerArg(player)
    requires MakeMove(s, loc, Relocate(v), player).made
    ensures var b := MakeMove(s, loc, Relocate(v), player).state.board;
            var dest := TupleAdd(loc, v);
            InBounds(dest) && Cell(b, dest) == Cell(s.board, loc) && Cell(b, loc) == Cell(s.board, dest)
  {
    RelocationMadeExactly(s, loc, v, player);
  }

  /** Lasers never leave their squares: relocating one never happens. */
  lemma LasersNeverRelocate(s: GameState, loc: Coord, v: Vec, player: Option<int>)
    requires ValidState(s) && InBounds(loc) && Relocate(v) in MOVE_MOVES && PlayerArg(player)
    requires FindPiece(Cell(s.board, loc)) == LASER
    ensures !MakeMove(s, loc, Relocate(v), player).made
  {
  }

  // ------------------------------------------------------------- the shot

  /** The path of a shot does not depend on whether it captures. */
  lemma PreviewSamePath(s: GameState, player: Option<int>)
    requires ValidState(s) && PlayerArg(player)
    ensures Fire(s, player, false).path == Fire(s, player, true).path
  {
  }

  /** A preview shot changes nothing but the turn. */
  lemma PreviewChangesOnlyTurn(s: GameState, player: Option<int>)
    requires ValidState(s) && PlayerArg(player) && s.winner == 0
    ensures Fire(s, player, false).state == s.(turn := -Mover(s, player))
  {
  }

  /** A captured king ends the game in favour of its owner's opponent. */
  lemma KingShotWins(s: GameState, player: Option<int>)
    requires ValidState(s) && PlayerArg(player) && s.winner == 0
    requires var w := Walk(s.board, LaserStart(s.board, Mover(s, player)), MAX_BEAM);
             w.end == Captured && |w.path| > 0 && InBounds(Last(w.path)) &&
             FindPiece(Cell(s.board, Last(w.path))) == KING
    ensures var w := Walk(s.board, LaserStart(s.board, Mover(s, player)), MAX_BEAM);
            var k := Cell(s.board, Last(w.path));
            Fire(s, player, true).destroyed == Some(k) &&
            Fire(s, player, true).state.winner == -FindPlayer(k) != 0
  {
  }

  // ------------------------------------------------------------- one turn

  datatype TurnResult = TurnResult(state: GameState, valid: bool, eliminated: Option<int>)

  /** The mover makes the move (with its no-entry squares) and, when it is
      valid, fires with capture; a destroyed king then decides the winner. */
  function MoveThenLaser(s: GameState, loc: Coord, m: Move, player: Option<int>): (r: TurnResult)
    requires ValidState(s) && InBounds(loc) && m in LEGAL_MOVES && PlayerArg(player)
    ensures ValidState(r.state)
  {
    var t := Mover(s, player);
    var mv := MakeMove(s, loc, m, Some(t));
    if mv.made then
      var sh := Fire(mv.state, Some(t), true);
      var st :=
        if sh.destroyed.Some? && FindPiece(sh.destroyed.value) == KING
        then sh.state.(winner := -FindPlayer(sh.destroyed.value))
        else sh.state;
      TurnResult(st, true, sh.destroyed)
    else
      TurnResult(mv.state, false, None)
  }

  /** What a turn does: it is valid exactly when the move (with the mover's
      no-entry squares) is made; an invalid turn only records the mover; a
      valid turn in a game still on passes the turn; a won game stays won by
      the same player; the winner changes only when a king is eliminated,
      to its owner's opponent. Lasers stay home and, while nobody has won,
      both kings stay on the board. */
  lemma MoveThenLaserOutcome(s: GameState, loc: Coord, m: Move, player: Option<int>)
    requires ValidState(s) && InBounds(loc) && m in LEGAL_MOVES && PlayerArg(player)
    ensures var r := MoveThenLaser(s, loc, m, player);
            r.valid == MakeMove(s, loc, m, Some(Mover(s, player))).made &&
            (!r.valid ==> r.eliminated.None? && r.state == s.(turn := Mover(s, player))) &&
            (r.valid && s.winner == 0 ==> r.state.turn == -Mover(s, player)) &&
            (s.winner != 0 ==> r.state.winner == s.winner && r.state.turn == Mover(s, player))
    ensures var r := MoveThenLaser(s, loc, m, player);
            (r.eliminated.Some? && FindPiece(r.eliminated.value) == KING ==>
               r.state.winner == -FindPlayer(r.eliminated.value)) &&
            (r.state.winner != s.winner ==> r.eliminated.Some? && FindPiece(r.eliminated.value) == KING)
    ensures var r := MoveThenLaser(s, loc, m, player);
            (LasersHome(s.board) ==> LasersHome(r.state.board)) &&
            (KingsOrOver(s) ==> KingsOrOver(r.state))
  {
    var t := Mover(s, player);
    MakeMoveOutcome(s, loc, m, Some(t));
    MakeMoveKeepsLasers(s, loc, m, Some(t));
    MakeMoveKeepsKings(s, loc, m, Some(t));
    var mv := MakeMove(s, loc, m, Some(t));
    if mv.made {
      FireOutcome(mv.state, Some(t), true);
    }
  }

  /** The turn's own winner update after the shot never changes anything:
      the shot has already declared the same winner. */
  lemma TurnWinnerUpdateRedundant(s: GameState, loc: Coord, m: Move, player: Option<int>)
    requires ValidState(s) && InBounds(loc) && m in LEGAL_MOVES && PlayerArg(player)
    requires MakeMove(s, loc, m, Some(Mover(s, player))).made
    ensures var mv := MakeMove(s, loc, m, Some(Mover(s, player)));
            MoveThenLaser(s, loc, m, player) ==
              TurnResult(Fire(mv.state, Some(Mover(s, player)), true).state, true,
                         Fire(mv.state, Some(Mover(s, player)), true).destroyed)
  {
  }

  /** After the game is won a valid move is still made on the board, but the
      shot does nothing and the turn does not pass. */
  lemma MoveAfterGameOver(s: GameState, loc: Coord, m: Move, player: Option<int>)
    requires ValidState(s) && InBounds(loc) && m in LEGAL_MOVES && PlayerArg(player)
    requires s.winner != 0
    ensures var mv := MakeMove(s, loc, m, Some(Mover(s, player)));
            var r := MoveThenLaser(s, loc, m, player);
            r.state == mv.state && r.eliminated.None? && r.valid == mv.made
  {
  }

  // ------------------------------------------------------------ the setup

  /** A board built from a layout that passes the setup checks keeps both
      lasers home. */
  lemma SetupHasLasers(layout: Board, playerToMove: int)
    requires IsBoard(layout) && ValidSetup(layout, playerToMove)
    ensures LasersHome(layout)
  {
  }

  /** The setup checks only that each king is present, not that it is
      unique: a layout with a second First king passes. */
  lemma SetupAllowsTwoKings()
    ensures var b := Put(Put(Put(EmptyBoard(), (3, 3), KING_1), (3, 4), KING_1), (4, 4), KING_2);
            ValidSetup(b, FIRST) && Cell(b, (3, 3)) == Cell(b, (3, 4)) == KING_1
  {
    var b := Put(Put(Put(EmptyBoard(), (3, 3), KING_1), (3, 4), KING_1), (4, 4), KING_2);
    BoardContains(b, (3, 3), KING_1);
    BoardContains(b, (4, 4), KING_2);
  }

  /** The code v occurs on the layout exactly once, at c. */
  predicate OnlyAt(b: seq<seq<int>>, v: int, c: Coord)
  {
    0 <= c.0 < |b| && 0 <= c.1 < |b[c.0]| && b[c.0][c.1] == v &&
    forall i, j :: 0 <= i < |b| && 0 <= j < |b[i]| && b[i][j] == v ==> (i, j) == c
  }

  /** What every named layout satisfies: it passes the setup checks for
      either first player and holds exactly one king of each player. */
  ghost predicate GoodPreset(b: Board, king1: Coord, king2: Coord)
  {
    IsBoard(b) && ValidSetup(b, FIRST) && ValidSetup(b, SECOND) &&
    OnlyAt(b, KING_1, king1) && OnlyAt(b, KING_2, king2)
  }

  lemma FoundIsContained(b: seq<seq<int>>, v: int, c: Coord)
    requires OnlyAt(b, v, c)
    ensures Contains(b, v)
  {
  }

  /** A layout of the right shape holding only named codes is a board. */
  lemma NamedLayoutIsBoard(b: seq<seq<int>>)
    requires |b| == ROWS && forall i :: 0 <= i < ROWS ==> |b[i]| == COLUMNS
    requires forall i, j :: 0 <= i < ROWS && 0 <= j < COLUMNS ==> NamedCode(b[i][j])
    ensures IsBoard(b)
  {
    forall i, j | 0 <= i < ROWS && 0 <= j < COLUMNS
      ensures ValidCell(b[i][j])
    {
      NamedCodesValid(b[i][j]);
    }
  }

  lemma AceKings() ensures OnlyAt(ACE, KING_1, (7, 4)) && OnlyAt(ACE, KING_2, (0, 5)) {}

  lemma AceIsGood() ensures GoodPreset(ACE, (7, 4), (0, 5))
  {
    NamedLayoutIsBoard(ACE);
    AceKings();
    FoundIsContained(ACE, KING_1, (7, 4));
    FoundIsContained(ACE, KING_2, (0, 5));
  }

  lemma CuriosityKings() ensures OnlyAt(CURIOSITY, KING_1, (7, 4)) && OnlyAt(CURIOSITY, KING_2, (0, 5)) {}

  lemma CuriosityIsGood() ensures GoodPreset(CURIOSITY, (7, 4), (0, 5))
  {
    NamedLayoutIsBoard(CURIOSITY);
    CuriosityKings();
    FoundIsContained(CURIOSITY, KING_1, (7, 4));
    FoundIsContained(CURIOSITY, KING_2, (0, 5));
  }

  lemma GrailKings() ensures OnlyAt(GRAIL, KING_1, (6, 4)) && OnlyAt(GRAIL, KING_2, (1, 5)) {}

  lemma GrailIsGood() ensures GoodPreset(GRAIL, (6, 4), (1, 5))
  {
    NamedLayoutIsBoard(GRAIL);
    GrailKings();
    FoundIsContained(GRAIL, KING_1, (6, 4));
    FoundIsContained(GRAIL, KING_2, (1, 5));
  }

  lemma MercuryKings() ensures OnlyAt(MERCURY, KING_1, (7, 4)) && OnlyAt(MERCURY, KING_2, (0, 5)) {}

  lemma MercuryIsGood() ensures GoodPreset(MERCURY, (7, 4), (0, 5))
  {
    NamedLayoutIsBoard(MERCURY);
    MercuryKings();
    FoundIsContained(MERCURY, KING_1, (7, 4));
    FoundIsContained(MERCURY, KING_2, (0, 5));
  }

  lemma SophieKings() ensures OnlyAt(SOPHIE, KING_1, (7, 5)) && OnlyAt(SOPHIE, KING_2, (0, 4)) {}

  lemma SophieIsGood() ensures GoodPreset(SOPHIE, (7, 5), (0, 4))
  {
    NamedLayoutIsBoard(SOPHIE);
    SophieKings();
    FoundIsContained(SOPHIE, KING_1, (7, 5));
    FoundIsContained(SOPHIE, KING_2, (0, 4));
  }

  /** Every layout in the preset list is a good starting position. */
  lemma PresetsAreGood()
    ensures |PRESETS| == 5
    ensures GoodPreset(PRESETS[0], (7, 4), (0, 5)) && GoodPreset(PRESETS[1], (7, 4), (0, 5))
    ensures GoodPreset(PRESETS[2], (6, 4), (1, 5)) && GoodPreset(PRESETS[3], (7, 4), (0, 5))
    ensures GoodPreset(PRESETS[4], (7, 5), (0, 4))
  {
    AceIsGood(); CuriosityIsGood(); GrailIsGood(); MercuryIsGood(); SophieIsGood();
  }
}
