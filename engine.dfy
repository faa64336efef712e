/** The game object: a board array updated in place, the turn and the
    winner. Each method is proved to leave the object in the state the
    corresponding function of module Rules computes. */
module Engine {
  import opened Consts
  import opened Pieces
  import opened Wrappers
  import opened Rules
  import BeamBound

  /** The contents of an 8 x 10 array as a board value. */
  function Cells(a: array2<int>): (b: Board)
    reads a
    requires a.Length0 == ROWS && a.Length1 == COLUMNS
    ensures |b| == ROWS
    ensures forall i :: 0 <= i < ROWS ==> |b[i]| == COLUMNS
    ensures forall i, j :: 0 <= i < ROWS && 0 <= j < COLUMNS ==> b[i][j] == a[i, j]
  {
    seq(ROWS, i requires 0 <= i < ROWS reads a =>
      seq(COLUMNS, j requires 0 <= j < COLUMNS reads a => a[i, j]))
  }

  /** Two boards with the same cells are the same board. */
  lemma BoardExt(x: Board, y: Board)
    requires IsBoard(x) && IsBoard(y)
    requires forall i, j :: 0 <= i < ROWS && 0 <= j < COLUMNS ==> x[i][j] == y[i][j]
    ensures x == y
  {
    forall i | 0 <= i < ROWS
      ensures x[i] == y[i]
    {
    }
  }

  /** A fresh array holding the board b. */
  method NewBoard(b: Board) returns (a: array2<int>)
    requires IsBoard(b)
    ensures fresh(a) && a.Length0 == ROWS && a.Length1 == COLUMNS
    ensures Cells(a) == b
  {
    a := new int[ROWS, COLUMNS];
    var i := 0;
    while i < ROWS
      invariant 0 <= i <= ROWS
      invariant forall r, c :: 0 <= r < i && 0 <= c < COLUMNS ==> a[r, c] == b[r][c]
    {
      var j := 0;
      while j < COLUMNS
        invariant 0 <= j <= COLUMNS
        invariant forall r, c :: 0 <= r < i && 0 <= c < COLUMNS ==> a[r, c] == b[r][c]
        invariant forall c :: 0 <= c < j ==> a[i, c] == b[i][c]
      {
        a[i, j] := b[i][j];
        j := j + 1;
      }
      i := i + 1;
    }
    BoardExt(Cells(a), b);
  }

  /** One step of the walk through a cell the beam passes. */
  lemma WalkPass(b: Board, r: Ray, fuel: nat, d: Vec, full: Beam, before: seq<Coord>)
    requires IsBoard(b) && InBounds(r.at) && fuel > 0 && Interact(Cell(b, r.at), r.dir) == Pass(d)
    requires full.path == before + Walk(b, r, fuel).path && full.end == Walk(b, r, fuel).end
    ensures var w := Walk(b, Ray(TupleAdd(r.at, d), d), fuel - 1);
            full.path == (before + [r.at]) + w.path && full.end == w.end
  {
    var w := Walk(b, Ray(TupleAdd(r.at, d), d), fuel - 1);
    assert Walk(b, r, fuel) == Beam([r.at] + w.path, w.end);
    assert before + ([r.at] + w.path) == (before + [r.at]) + w.path;
  }

  /** A move for a named player does not depend on the stored turn. */
  lemma MoveIgnoresStoredTurn(s: GameState, loc: Coord, m: Move, t: int)
    requires ValidState(s) && InBounds(loc) && m in LEGAL_MOVES && t in PLAYER
    ensures ValidState(s.(turn := t))
    ensures Rules.MakeMove(s.(turn := t), loc, m, Some(t)) == Rules.MakeMove(s, loc, m, Some(t))
  {
  }

  /** The last step of the walk, at a cell that stops the beam. */
  lemma WalkHalt(b: Board, r: Ray, fuel: nat)
    requires IsBoard(b) && InBounds(r.at) && fuel > 0 && Interact(Cell(b, r.at), r.dir).Halt?
    ensures Walk(b, r, fuel) ==
            Beam([r.at], if Interact(Cell(b, r.at), r.dir).captured then Captured else Blocked)
  {
  }

  class LaserChess {
    var board: array2<int>
    var turn: int
    var winner: int

    ghost predicate Valid()
      reads this, board
    {
      board.Length0 == ROWS && board.Length1 == COLUMNS && ValidState(GameState(Cells(board), turn, winner))
    }

    /** The game as a value. */
    ghost function State(): GameState
      reads this, board
      requires board.Length0 == ROWS && board.Length1 == COLUMNS
    {
      GameState(Cells(board), turn, winner)
    }

    /** A game on a copy of the layout, with playerToMove to move and no
        winner, after the same checks the source makes. */
    constructor (layout: Board, playerToMove: int)
      requires IsBoard(layout) && ValidSetup(layout, playerToMove)
      ensures Valid() && fresh(board)
      ensures State() == GameState(layout, playerToMove, 0)
      ensures LasersHome(State().board) && KingsOrOver(State())
    {
      var a := NewBoard(layout);
      board := a;
      turn := playerToMove;
      winner := 0;
    }

    /** A deep copy of another game. */
    constructor Copy(other: LaserChess)
      requires other.Valid()
      ensures Valid() && fresh(board)
      ensures State() == other.State()
    {
      var a := NewBoard(Cells(other.board));
      board := a;
      turn := other.turn;
      winner := other.winner;
    }

    /** Records whose turn it is. */
    method SetTurn(t: int)
      requires Valid() && t in PLAYER
      modifies this
      ensures Valid() && board == old(board)
      ensures State() == old(State()).(turn := t)
    {
      turn := t;
    }

    /** Records the winner. */
    method SetWinner(w: int)
      requires Valid() && w in {0, FIRST, SECOND}
      modifies this
      ensures Valid() && board == old(board)
      ensures State() == old(State()).(winner := w)
    {
      winner := w;
    }

    method SetCell(c: Coord, v: int)
      requires Valid() && InBounds(c) && ValidCell(v)
      modifies board
      ensures Valid()
      ensures Cells(board) == Put(old(Cells(board)), c, v)
    {
      ghost var before := Cells(board);
      board[c.0, c.1] := v;
      BoardExt(Cells(board), Put(before, c, v));
    }

    /** The move validator, changing the board in place. */
    method MakeMove(loc: Coord, m: Move, player: Option<int>) returns (made: bool)
      requires Valid() && InBounds(loc) && m in LEGAL_MOVES && PlayerArg(player)
      modifies this, board
      ensures Valid() && board == old(board)
      ensures MoveResult(State(), made) == Rules.MakeMove(old(State()), loc, m, player)
    {
      ghost var s := State();
      if player.Some? {
        turn := player.value;
      }
      var x := board[loc.0, loc.1];
      if x == 0 {
        made := false;
      } else if FindPlayer(x) != turn {
        made := false;
      } else if m.Rotate? {
        SetCell(loc, RotateCode(x, m.delta));
        made := true;
      } else {
        var dest := TupleAdd(loc, m.dir);
        if FindPiece(x) == LASER {
          made := false;
        } else if !InBounds(dest) {
          made := false;
        } else if Forbidden(player, dest) {
          made := false;
        } else if board[dest.0, dest.1] == 0 ||
                  (FindPiece(x) == SWITCH && FindPiece(board[dest.0, dest.1]) in {DEFLECTOR, DEFENDER}) {
          var y := board[dest.0, dest.1];
          SetCell(loc, y);
          SetCell(dest, x);
          made := true;
        } else {
          made := false;
        }
      }
    }
  
    /** The shooter's laser cell and the way it fires. */
    method LaserOrigin(shooter: int) returns (coord: Coord, dir: Vec)
      requires Valid()
      ensures Ray(coord, dir) == LaserStart(Cells(board), shooter)
    {
      if shooter == SECOND {
        coord := (0, 0);
        dir := if FindOrient(board[0, 0]) == LASER_HORT then E else S;
      } else {
        coord := (ROWS - 1, COLUMNS - 1);
        dir := if FindOrient(board[ROWS - 1, COLUMNS - 1]) == LASER_HORT then W else N;
      }
    }

    /** The beam walk from start, cell by cell while the beam is on the
        board: the path, and why the beam stopped with the cell it stopped
        at. Changes nothing. The ghost fuel only bounds the loop: the walk
        is known to end before it runs out. */
    method Follow(start: Ray, ghost fuel: nat) returns (path: seq<Coord>, last: Coord, end: End)
      requires Valid() && Walk(Cells(board), start, fuel).end != OutOfFuel
      ensures path == Walk(Cells(board), start, fuel).path
      ensures end == Walk(Cells(board), start, fuel).end
      ensures end != OffBoard ==> |path| > 0 && last == Last(path) && InBounds(last)
    {
      ghost var b := Cells(board);
      ghost var full := Walk(b, start, fuel);
      ghost var left := fuel;
      var coord := start.at;
      var dir := start.dir;
      path := [];
      last := coord;
      end := OffBoard;
      while InBounds(coord)
        invariant Walk(b, Ray(coord, dir), left).end != OutOfFuel
        invariant full.path == path + Walk(b, Ray(coord, dir), left).path
        invariant full.end == Walk(b, Ray(coord, dir), left).end
        decreases left
      {
        var x := board[coord.0, coord.1];
        assert x == Cell(b, coord);
        ghost var before := path;
        path := path + [coord];
        match Interact(x, dir)
        case Pass(d) =>
          assert left > 0;
          WalkPass(b, Ray(coord, dir), left, d, full, before);
          dir := d;
          coord := TupleAdd(coord, d);
          left := left - 1;
        case Halt(c) =>
          WalkHalt(b, Ray(coord, dir), left);
          last := coord;
          end := if c then Captured else Blocked;
          break;
      }
    }

    /** The beam from the shooter's laser: it never runs out of steps. */
    method Trace(shooter: int) returns (path: seq<Coord>, last: Coord, end: End)
      requires Valid()
      ensures var w := Walk(Cells(board), LaserStart(Cells(board), shooter), MAX_BEAM);
              path == w.path && end == w.end
      ensures end != OffBoard ==> |path| > 0 && last == Last(path) && InBounds(last)
    {
      var coord, dir := LaserOrigin(shooter);
      BeamBound.BeamNeverExhausted(Cells(board), shooter);
      path, last, end := Follow(Ray(coord, dir), MAX_BEAM);
    }

    /** The beam simulator: the mover fires, the beam walks cell by cell
        until it leaves the board or stops at a piece, and with capture the
        piece it captures is removed. Returns that piece and the path. */
    method ShootLaserPathPiece(player: Option<int>, capture: bool)
      returns (destroyed: Option<int>, path: seq<Coord>)
      requires Valid() && PlayerArg(player)
      modifies this, board
      ensures Valid() && board == old(board)
      ensures Shot(State(), destroyed, path) == Fire(old(State()), player, capture)
    {
      ghost var s := State();
      ghost var t := Mover(s, player);
      if player.Some? {
        SetTurn(player.value);
      }
      destroyed := None;
      path := [];
      if winner != 0 {
        return;
      }
      var last: Coord;
      var end: End;
      path, last, end := Trace(turn);
      ghost var beam := Walk(s.board, LaserStart(s.board, t), MAX_BEAM);
      assert turn == t && Cells(board) == s.board && path == beam.path && end == beam.end;
      if capture && end == Captured {
        var x := board[last.0, last.1];
        assert x == Cell(s.board, Last(beam.path));
        if FindPiece(x) == KING {
          SetWinner(-FindPlayer(x));
        }
        destroyed := Some(x);
        SetCell(last, 0);
      }
      SetTurn(-turn);
    }
  
    /** A committing shot; returns the piece it destroyed. */
    method ShootLaser(player: Option<int>) returns (destroyed: Option<int>)
      requires Valid() && PlayerArg(player)
      modifies this, board
      ensures Valid() && board == old(board)
      ensures State() == Fire(old(State()), player, true).state
      ensures destroyed == Fire(old(State()), player, true).destroyed
    {
      var path;
      destroyed, path := ShootLaserPathPiece(player, true);
    }

    /** A shot, committing or previewing; returns the beam's path. */
    method ShootLaserPath(player: Option<int>, capture: bool) returns (path: seq<Coord>)
      requires Valid() && PlayerArg(player)
      modifies this, board
      ensures Valid() && board == old(board)
      ensures State() == Fire(old(State()), player, capture).state
      ensures path == Fire(old(State()), player, capture).path
    {
      var destroyed;
      destroyed, path := ShootLaserPathPiece(player, capture);
    }

    /** One turn: the move, then, when it is valid, a committing shot by the
        same player; a destroyed king decides the winner. */
    method MoveThenLaser(loc: Coord, m: Move, player: Option<int>)
      returns (valid: bool, eliminated: Option<int>)
      requires Valid() && InBounds(loc) && m in LEGAL_MOVES && PlayerArg(player)
      modifies this, board
      ensures Valid() && board == old(board)
      ensures TurnResult(State(), valid, eliminated) == Rules.MoveThenLaser(old(State()), loc, m, player)
    {
      ghost var s := State();
      ghost var t := Mover(s, player);
      if player.Some? {
        SetTurn(player.value);
      }
      MoveIgnoresStoredTurn(s, loc, m, t);
      valid := MakeMove(loc, m, Some(turn));
      ghost var mv := Rules.MakeMove(s, loc, m, Some(t));
      assert valid == mv.made && State() == mv.state && turn == t;
      if valid {
        eliminated := ShootLaser(Some(turn));
      } else {
        eliminated := None;
      }
      if eliminated.Some? && FindPiece(eliminated.value) == KING {
        SetWinner(-FindPlayer(eliminated.value));
      }
    }
  }
}
