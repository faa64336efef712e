/** The computer player: queries on the board, move enumeration by probing
    copies, the position score, and the alpha-beta search over the game
    played by the engine. */
module LaserAI {
  import opened Consts
  import opened Pieces
  import opened Wrappers
  import opened Rules
  import opened Search
  import opened Engine

  const PIECE_VALUE: int := 5
  const KING_VALUE: int := 15 * PIECE_VALUE

  // ------------------------------------------------------ board queries

  /** a comes before c in row-major order. */
  predicate Before(a: Coord, c: Coord)
  {
    a.0 < c.0 || (a.0 == c.0 && a.1 < c.1)
  }

  /** An 8 x 10 grid of codes, whatever they are. */
  predicate Grid(b: seq<seq<int>>)
  {
    |b| == ROWS && forall i :: 0 <= i < ROWS ==> |b[i]| == COLUMNS
  }

  /** The cells of row i from column j on whose code satisfies f, left to right. */
  function RowWhere(b: Board, f: int -> bool, i: int, j: int): seq<Coord>
    requires Grid(b) && 0 <= i < ROWS && 0 <= j <= COLUMNS
    decreases COLUMNS - j
  {
    if j == COLUMNS then []
    else if f(b[i][j]) then [(i, j)] + RowWhere(b, f, i, j + 1)
    else RowWhere(b, f, i, j + 1)
  }

  /** The cells of rows i and below whose code satisfies f, in row-major order. */
  function WhereFrom(b: Board, f: int -> bool, i: int): seq<Coord>
    requires Grid(b) && 0 <= i <= ROWS
    decreases ROWS - i
  {
    if i == ROWS then [] else RowWhere(b, f, i, 0) + WhereFrom(b, f, i + 1)
  }

  /** The cells whose code satisfies f, in row-major order. */
  function Where(b: Board, f: int -> bool): seq<Coord>
    requires Grid(b)
  {
    WhereFrom(b, f, 0)
  }

  /** Cell c is on the grid and its code satisfies f. */
  predicate Holds(b: Board, f: int -> bool, c: Coord)
    requires Grid(b)
  {
    0 <= c.0 < ROWS && 0 <= c.1 < COLUMNS && f(b[c.0][c.1])
  }

  /** Every cell of r lies in row i, at column j or after. */
  predicate InRow(r: seq<Coord>, i: int, j: int)
  {
    forall k :: 0 <= k < |r| ==> r[k].0 == i && j <= r[k].1
  }

  /** Every cell of r lies in row i or below. */
  predicate FromRow(r: seq<Coord>, i: int)
  {
    forall k :: 0 <= k < |r| ==> i <= r[k].0
  }

  /** The cells of r are in strictly increasing row-major order. */
  predicate RowMajor(r: seq<Coord>)
  {
    forall k, l :: 0 <= k < l < |r| ==> Before(r[k], r[l])
  }

  lemma {:induction false} RowWhereMember(b: Board, f: int -> bool, i: int, j: int, c: Coord)
    requires Grid(b) && 0 <= i < ROWS && 0 <= j <= COLUMNS
    ensures c in RowWhere(b, f, i, j) <==> c.0 == i && j <= c.1 && Holds(b, f, c)
    decreases COLUMNS - j
  {
    if j < COLUMNS {
      RowWhereMember(b, f, i, j + 1, c);
      var rest := RowWhere(b, f, i, j + 1);
      if f(b[i][j]) {
        assert RowWhere(b, f, i, j) == [(i, j)] + rest;
      } else {
        assert RowWhere(b, f, i, j) == rest;
      }
    }
  }

  lemma {:induction false} RowWhereOrder(b: Board, f: int -> bool, i: int, j: int)
    requires Grid(b) && 0 <= i < ROWS && 0 <= j <= COLUMNS
    ensures InRow(RowWhere(b, f, i, j), i, j) && RowMajor(RowWhere(b, f, i, j))
    decreases COLUMNS - j
  {
    if j < COLUMNS {
      RowWhereOrder(b, f, i, j + 1);
      var rest := RowWhere(b, f, i, j + 1);
      if f(b[i][j]) {
        var r := [(i, j)] + rest;
        assert RowWhere(b, f, i, j) == r;
        assert forall k :: 1 <= k < |r| ==> r[k] == rest[k - 1];
      } else {
        assert RowWhere(b, f, i, j) == rest;
      }
    }
  }

  lemma {:induction false} WhereFromMember(b: Board, f: int -> bool, i: int, c: Coord)
    requires Grid(b) && 0 <= i <= ROWS
    ensures c in WhereFrom(b, f, i) <==> i <= c.0 && Holds(b, f, c)
    decreases ROWS - i
  {
    if i < ROWS {
      RowWhereMember(b, f, i, 0, c);
      WhereFromMember(b, f, i + 1, c);
      assert WhereFrom(b, f, i) == RowWhere(b, f, i, 0) + WhereFrom(b, f, i + 1);
    }
  }

  /** A row's cells followed by cells of lower rows, each part in order,
      are in order. */
  lemma ConcatRowMajor(row: seq<Coord>, rest: seq<Coord>, r: seq<Coord>, i: int)
    requires InRow(row, i, 0) && RowMajor(row) && FromRow(rest, i + 1) && RowMajor(rest)
    requires r == row + rest
    ensures FromRow(r, i) && RowMajor(r)
  {
    forall k | 0 <= k < |r|
      ensures i <= r[k].0
    {
      if k < |row| {
        assert r[k] == row[k];
      } else {
        assert r[k] == rest[k - |row|];
      }
    }
    forall k, l | 0 <= k < l < |r|
      ensures Before(r[k], r[l])
    {
      if l < |row| {
        assert r[k] == row[k] && r[l] == row[l];
      } else if k >= |row| {
        assert r[k] == rest[k - |row|] && r[l] == rest[l - |row|];
      } else {
        assert r[k] == row[k] && r[l] == rest[l - |row|];
      }
    }
  }

  lemma {:induction false} WhereFromOrder(b: Board, f: int -> bool, i: int)
    requires Grid(b) && 0 <= i <= ROWS
    ensures FromRow(WhereFrom(b, f, i), i) && RowMajor(WhereFrom(b, f, i))
    decreases ROWS - i
  {
    if i < ROWS {
      WhereFromOrder(b, f, i + 1);
      WhereFromStep(b, f, i);
    }
  }

  lemma WhereFromStep(b: Board, f: int -> bool, i: int)
    requires Grid(b) && 0 <= i < ROWS
    requires FromRow(WhereFrom(b, f, i + 1), i + 1) && RowMajor(WhereFrom(b, f, i + 1))
    ensures FromRow(WhereFrom(b, f, i), i) && RowMajor(WhereFrom(b, f, i))
  {
    RowWhereOrder(b, f, i, 0);
    ConcatRowMajor(RowWhere(b, f, i, 0), WhereFrom(b, f, i + 1), WhereFrom(b, f, i), i);
  }

  /** Where lists exactly the cells satisfying f, in strictly row-major
      order (so each of them once). */
  lemma WhereSpec(b: Board, f: int -> bool)
    requires Grid(b)
    ensures forall c :: c in Where(b, f) <==> Holds(b, f, c)
    ensures RowMajor(Where(b, f))
  {
    forall c: Coord
      ensures c in Where(b, f) <==> Holds(b, f, c)
    {
      WhereFromMember(b, f, 0, c);
    }
    WhereFromOrder(b, f, 0);
  }

  function OwnerTest(player: int): int -> bool
  {
    if player == FIRST then x => x > 0 else x => x < 0
  }

  /** The cells holding the player's pieces, in row-major order; no result
      (the source raises) for a value that is not a player. */
  function PlayerLocations(b: Board, player: int): Option<seq<Coord>>
    requires Grid(b)
  {
    if player in PLAYER then Some(Where(b, OwnerTest(player))) else None
  }

  /** The locations are exactly the player's cells, each once, in row-major
      order, lasers and king included. */
  lemma PlayerLocationsExactly(b: Board, player: int)
    requires Grid(b)
    ensures PlayerLocations(b, player).Some? <==> player in PLAYER
    ensures player in PLAYER ==>
              (forall c :: c in PlayerLocations(b, player).value <==>
                             InBounds(c) && FindPlayer(b[c.0][c.1]) == player) &&
              RowMajor(PlayerLocations(b, player).value)
  {
    if player in PLAYER {
      WhereSpec(b, OwnerTest(player));
    }
  }

  function RowCount(b: Board, f: int -> bool, i: int, j: int): nat
    requires Grid(b) && 0 <= i < ROWS && 0 <= j <= COLUMNS
    decreases COLUMNS - j
  {
    if j == COLUMNS then 0
    else if f(b[i][j]) then 1 + RowCount(b, f, i, j + 1)
    else RowCount(b, f, i, j + 1)
  }

  function CountFrom(b: Board, f: int -> bool, i: int): nat
    requires Grid(b) && 0 <= i <= ROWS
    decreases ROWS - i
  {
    if i == ROWS then 0 else RowCount(b, f, i, 0) + CountFrom(b, f, i + 1)
  }

  /** The number of cells holding the player's pieces; no result (the
      source raises) for a value that is not a player. */
  function CountPlayerPieces(b: Board, player: int): Option<nat>
    requires Grid(b)
  {
    if player in PLAYER then Some(CountFrom(b, OwnerTest(player), 0)) else None
  }

  lemma {:induction false} RowCountMatches(b: Board, f: int -> bool, i: int, j: int)
    requires Grid(b) && 0 <= i < ROWS && 0 <= j <= COLUMNS
    ensures RowCount(b, f, i, j) == |RowWhere(b, f, i, j)|
    decreases COLUMNS - j
  {
    if j < COLUMNS {
      RowCountMatches(b, f, i, j + 1);
    }
  }

  lemma {:induction false} CountFromMatches(b: Board, f: int -> bool, i: int)
    requires Grid(b) && 0 <= i <= ROWS
    ensures CountFrom(b, f, i) == |WhereFrom(b, f, i)|
    decreases ROWS - i
  {
    if i < ROWS {
      RowCountMatches(b, f, i, 0);
      CountFromMatches(b, f, i + 1);
    }
  }

  /** The piece count is the number of the player's locations. */
  lemma CountIsLocations(b: Board, player: int)
    requires Grid(b)
    ensures CountPlayerPieces(b, player).Some? <==> player in PLAYER
    ensures player in PLAYER ==>
              CountPlayerPieces(b, player).value == |PlayerLocations(b, player).value|
  {
    if player in PLAYER {
      CountFromMatches(b, OwnerTest(player), 0);
    }
  }

  function KingTest(player: int): int -> bool
  {
    x => x == player * KING
  }

  /** The first cell in row-major order holding the player's king; none
      (the source raises) when there is no such cell. */
  function FindKing(b: Board, player: int): Option<Coord>
    requires Grid(b)
  {
    var hits := Where(b, KingTest(player));
    if |hits| == 0 then None else Some(hits[0])
  }

  /** The head of an ordered list comes before each of its other cells. */
  lemma HeadFirst(r: seq<Coord>, c: Coord)
    requires RowMajor(r) && c in r && c != r[0]
    ensures Before(r[0], c)
  {
    var l :| 0 <= l < |r| && r[l] == c;
    assert l > 0;
  }

  /** The cells holding the player's king, in row-major order. */
  lemma KingCells(b: Board, player: int)
    requires Grid(b)
    ensures forall c :: c in Where(b, KingTest(player)) <==> InBounds(c) && b[c.0][c.1] == player * KING
    ensures RowMajor(Where(b, KingTest(player)))
  {
    WhereSpec(b, KingTest(player));
    forall c
      ensures Holds(b, KingTest(player), c) <==> InBounds(c) && b[c.0][c.1] == player * KING
    {
    }
  }

  /** A king is found exactly when the board holds one. */
  lemma FindKingFound(b: Board, player: int)
    requires Grid(b)
    ensures FindKing(b, player).Some? <==> Contains(b, player * KING)
  {
    KingCells(b, player);
    var hits := Where(b, KingTest(player));
    if Contains(b, player * KING) {
      var i, j :| 0 <= i < |b| && 0 <= j < |b[i]| && b[i][j] == player * KING;
      assert (i, j) in hits;
    }
    if |hits| > 0 {
      assert hits[0] in hits;
    }
  }

  /** The cell found holds the player's king, and comes before every
      other cell holding it. */
  lemma FindKingHead(b: Board, player: int)
    requires Grid(b) && FindKing(b, player).Some?
    ensures InBounds(FindKing(b, player).value)
    ensures b[FindKing(b, player).value.0][FindKing(b, player).value.1] == player * KING
    ensures forall c :: InBounds(c) && b[c.0][c.1] == player * KING && c != FindKing(b, player).value ==>
                          Before(FindKing(b, player).value, c)
  {
    KingCells(b, player);
    var hits := Where(b, KingTest(player));
    assert hits[0] in hits;
    forall c | InBounds(c) && b[c.0][c.1] == player * KING && c != hits[0]
      ensures Before(hits[0], c)
    {
      HeadFirst(hits, c);
    }
  }

  /** A king is found exactly when the board holds one, and the one found
      comes before every other cell holding that king. */
  lemma FindKingFirst(b: Board, player: int)
    requires Grid(b)
    ensures FindKing(b, player).Some? <==> Contains(b, player * KING)
    ensures FindKing(b, player).Some? ==>
              InBounds(FindKing(b, player).value) &&
              b[FindKing(b, player).value.0][FindKing(b, player).value.1] == player * KING
    ensures forall c :: (FindKing(b, player).Some? && InBounds(c) && b[c.0][c.1] == player * KING &&
                         c != FindKing(b, player).value) ==> Before(FindKing(b, player).value, c)
  {
    FindKingFound(b, player);
    if FindKing(b, player).Some? {
      FindKingHead(b, player);
    }
  }

  // --------------------------------------------------- move enumeration

  /** An iteration order of the legal moves: each of them exactly once. */
  predicate MoveOrder(order: seq<Move>)
  {
    (forall m :: m in order ==> m in LEGAL_MOVES) &&
    (forall m :: m in LEGAL_MOVES ==> m in order) &&
    (forall k, l :: 0 <= k < l < |order| ==> order[k] != order[l])
  }

  /** One such order: the eight steps clockwise from north, then the two turns. */
  const LEGAL_ORDER: seq<Move> :=
    [Relocate(N), Relocate(NE), Relocate(E), Relocate(SE),
     Relocate(S), Relocate(SW), Relocate(W), Relocate(NW), Rotate(CW), Rotate(ACW)]

  lemma LegalOrderIsMoveOrder()
    ensures MoveOrder(LEGAL_ORDER)
  {
    LegalOrderCovers();
    LegalOrderDistinct();
  }

  lemma LegalOrderCovers()
    ensures forall m :: m in LEGAL_ORDER <==> m in LEGAL_MOVES
  {
    var o := LEGAL_ORDER;
    assert forall m :: m in o ==> m in LEGAL_MOVES;
    assert forall m :: m in LEGAL_MOVES ==> m in o;
  }

  lemma LegalOrderDistinct()
    ensures forall k, l :: 0 <= k < l < |LEGAL_ORDER| ==> LEGAL_ORDER[k] != LEGAL_ORDER[l]
  {
    var o := LEGAL_ORDER;
    forall k, l | 0 <= k < l < |o|
      ensures o[k] != o[l]
    {
    }
  }

  /** The pairs (c, m) for the moves m of ms, in order, that are made at c
      for the player. */
  function ProbeCell(s: GameState, player: int, c: Coord, ms: seq<Move>): seq<(Coord, Move)>
    requires ValidState(s) && InBounds(c) && player in PLAYER
    requires forall m :: m in ms ==> m in LEGAL_MOVES
    decreases |ms|
  {
    if |ms| == 0 then []
    else
      var front := ProbeCell(s, player, c, ms[..|ms| - 1]);
      if MakeMove(s, c, ms[|ms| - 1], Some(player)).made then front + [(c, ms[|ms| - 1])] else front
  }

  /** ProbeCell for each of the cells, in order. */
  function ProbeAll(s: GameState, player: int, cells: seq<Coord>, order: seq<Move>): seq<(Coord, Move)>
    requires ValidState(s) && player in PLAYER
    requires forall c :: c in cells ==> InBounds(c)
    requires forall m :: m in order ==> m in LEGAL_MOVES
    decreases |cells|
  {
    if |cells| == 0 then []
    else ProbeAll(s, player, cells[..|cells| - 1], order) + ProbeCell(s, player, cells[|cells| - 1], order)
  }

  /** The legal moves of the player: for each of its cells in row-major
      order, each move of the order that the move validator makes with the
      player's no-entry squares; no result (the source raises) for a value
      that is not a player. */
  function LegalMoves(s: GameState, player: int, order: seq<Move>): Option<seq<(Coord, Move)>>
    requires ValidState(s) && MoveOrder(order)
  {
    if player !in PLAYER then None
    else
      PlayerLocationsExactly(s.board, player);
      Some(ProbeAll(s, player, PlayerLocations(s.board, player).value, order))
  }

  lemma {:induction false} ProbeCellExactly(s: GameState, player: int, c: Coord, ms: seq<Move>)
    requires ValidState(s) && InBounds(c) && player in PLAYER
    requires forall m :: m in ms ==> m in LEGAL_MOVES
    ensures forall x: (Coord, Move) :: x in ProbeCell(s, player, c, ms) <==>
                          x.0 == c && x.1 in ms && MakeMove(s, c, x.1, Some(player)).made
    decreases |ms|
  {
    if |ms| > 0 {
      var init := ms[..|ms| - 1];
      ProbeCellExactly(s, player, c, init);
      assert forall m :: m in ms <==> m in init || m == ms[|ms| - 1] by {
        assert ms == init + [ms[|ms| - 1]];
      }
    }
  }

  lemma {:induction false} ProbeAllExactly(s: GameState, player: int, cells: seq<Coord>, order: seq<Move>)
    requires ValidState(s) && player in PLAYER
    requires forall c :: c in cells ==> InBounds(c)
    requires forall m :: m in order ==> m in LEGAL_MOVES
    ensures forall x: (Coord, Move) :: x in ProbeAll(s, player, cells, order) <==>
                          x.0 in cells && x.1 in order && MakeMove(s, x.0, x.1, Some(player)).made
    decreases |cells|
  {
    if |cells| > 0 {
      var init := cells[..|cells| - 1];
      var c := cells[|cells| - 1];
      ProbeAllExactly(s, player, init, order);
      ProbeCellExactly(s, player, c, order);
      assert forall d :: d in cells <==> d in init || d == c by {
        assert cells == init + [c];
      }
    }
  }

  /** The legal moves are exactly the pairs of an in-bounds cell and a
      legal move that the move validator makes for the player there. */
  lemma LegalMovesExactly(s: GameState, player: int, order: seq<Move>)
    requires ValidState(s) && MoveOrder(order)
    ensures LegalMoves(s, player, order).Some? <==> player in PLAYER
    ensures player in PLAYER ==>
              forall x: (Coord, Move) :: x in LegalMoves(s, player, order).value <==>
                            InBounds(x.0) && x.1 in LEGAL_MOVES && MakeMove(s, x.0, x.1, Some(player)).made
  {
    if player in PLAYER {
      var locs := PlayerLocations(s.board, player).value;
      PlayerLocationsExactly(s.board, player);
      ProbeAllExactly(s, player, locs, order);
      forall x: (Coord, Move) | InBounds(x.0) && x.1 in LEGAL_MOVES && MakeMove(s, x.0, x.1, Some(player)).made
        ensures x.0 in locs
      {
        MakeMoveOutcome(s, x.0, x.1, Some(player));
      }
    }
  }

  /** The place of m in order: the first index holding it, or |order| when
      it is absent. */
  function Pos(order: seq<Move>, m: Move): (k: nat)
    ensures k <= |order|
    ensures k < |order| ==> order[k] == m
    ensures forall j :: 0 <= j < k ==> order[j] != m
    decreases |order|
  {
    if |order| == 0 then 0
    else if order[0] == m then 0
    else 1 + Pos(order[1..], m)
  }

  /** In an order without repeats each entry's place is its index. */
  lemma PosAt(order: seq<Move>, i: int)
    requires MoveOrder(order) && 0 <= i < |order|
    ensures Pos(order, order[i]) == i
  {
  }

  /** The pairs of r are listed by cell in row-major order and, within a
      cell, by the move's place in order. */
  predicate Enumerated(order: seq<Move>, r: seq<(Coord, Move)>)
  {
    forall k, l :: 0 <= k < l < |r| ==>
      Before(r[k].0, r[l].0) || (r[k].0 == r[l].0 && Pos(order, r[k].1) < Pos(order, r[l].1))
  }

  /** Probing the first n moves of the order at c lists pairs at c in the
      order's sequence. */
  lemma {:induction false} ProbeCellOrdered(s: GameState, player: int, c: Coord, order: seq<Move>, n: nat)
    requires ValidState(s) && InBounds(c) && player in PLAYER && MoveOrder(order) && n <= |order|
    ensures var r := ProbeCell(s, player, c, order[..n]);
            Enumerated(order, r) && forall k :: 0 <= k < |r| ==> r[k].0 == c && Pos(order, r[k].1) < n
    decreases n
  {
    if n > 0 {
      ProbeCellOrdered(s, player, c, order, n - 1);
      ProbeCellShape(s, player, c, order, n);
      PosAt(order, n - 1);
      ProbeCellOrderedStep(order, ProbeCell(s, player, c, order[..n - 1]), ProbeCell(s, player, c, order[..n]), c, n);
    }
  }

  /** Probing one more move of the order either keeps the list or appends
      that move. */
  lemma ProbeCellShape(s: GameState, player: int, c: Coord, order: seq<Move>, n: nat)
    requires ValidState(s) && InBounds(c) && player in PLAYER
    requires forall m :: m in order ==> m in LEGAL_MOVES
    requires 0 < n <= |order|
    ensures var front := ProbeCell(s, player, c, order[..n - 1]);
            var r := ProbeCell(s, player, c, order[..n]);
            r == front || r == front + [(c, order[n - 1])]
  {
    assert order[..n][..n - 1] == order[..n - 1];
  }

  /** Appending the pair of c and the n-th move of the order to a list of
      pairs at c with earlier moves keeps it enumerated. */
  lemma ProbeCellOrderedStep(order: seq<Move>, front: seq<(Coord, Move)>, r: seq<(Coord, Move)>, c: Coord, n: nat)
    requires 0 < n <= |order| && Pos(order, order[n - 1]) == n - 1
    requires Enumerated(order, front) && forall k :: 0 <= k < |front| ==> front[k].0 == c && Pos(order, front[k].1) < n - 1
    requires r == front || r == front + [(c, order[n - 1])]
    ensures Enumerated(order, r) && forall k :: 0 <= k < |r| ==> r[k].0 == c && Pos(order, r[k].1) < n
  {
    if r != front {
      EnumeratedSnoc(order, front, c, order[n - 1], n - 1);
    }
  }

  /** Appending a pair at c whose move comes after all the moves listed at
      c keeps a list enumerated. */
  lemma EnumeratedSnoc(order: seq<Move>, front: seq<(Coord, Move)>, c: Coord, m: Move, n: nat)
    requires Enumerated(order, front) && Pos(order, m) == n
    requires forall k :: 0 <= k < |front| ==> front[k].0 == c && Pos(order, front[k].1) < n
    ensures Enumerated(order, front + [(c, m)])
  {
  }

  /** Joining an enumerated list over all but the last of some cells in
      row-major order and an enumerated list at the last cell keeps them
      enumerated. */
  lemma EnumeratedJoin(order: seq<Move>, cells: seq<Coord>, front: seq<(Coord, Move)>, back: seq<(Coord, Move)>)
    requires RowMajor(cells) && |cells| > 0
    requires Enumerated(order, front) && Enumerated(order, back)
    requires forall x :: x in front ==> x.0 in cells[..|cells| - 1]
    requires forall k :: 0 <= k < |back| ==> back[k].0 == cells[|cells| - 1]
    ensures Enumerated(order, front + back)
  {
    forall k, l | 0 <= k < |front| && 0 <= l < |back|
      ensures Before(front[k].0, back[l].0)
    {
      assert front[k] in front;
      var i :| 0 <= i < |cells| - 1 && cells[i] == front[k].0;
    }
  }

  /** Probing cells in row-major order lists the pairs enumerated. */
  lemma {:induction false} ProbeAllOrdered(s: GameState, player: int, cells: seq<Coord>, order: seq<Move>)
    requires ValidState(s) && player in PLAYER && MoveOrder(order)
    requires forall c :: c in cells ==> InBounds(c)
    requires RowMajor(cells)
    ensures Enumerated(order, ProbeAll(s, player, cells, order))
    decreases |cells|
  {
    if |cells| > 0 {
      var init := cells[..|cells| - 1];
      var c := cells[|cells| - 1];
      ProbeAllOrdered(s, player, init, order);
      ProbeAllExactly(s, player, init, order);
      assert order[..|order|] == order;
      ProbeCellOrdered(s, player, c, order, |order|);
      var front := ProbeAll(s, player, init, order);
      assert forall x :: x in front ==> x.0 in init;
      EnumeratedJoin(order, cells, front, ProbeCell(s, player, c, order));
    }
  }

  /** The legal moves are listed cell by cell in row-major order and, at a
      cell, in the order of the moves; so each pair appears once. */
  lemma LegalMovesOrdered(s: GameState, player: int, order: seq<Move>)
    requires ValidState(s) && MoveOrder(order) && player in PLAYER
    ensures Enumerated(order, LegalMoves(s, player, order).value)
    ensures var ms := LegalMoves(s, player, order).value;
            forall k, l :: 0 <= k < l < |ms| ==> ms[k] != ms[l]
  {
    PlayerLocationsExactly(s.board, player);
    ProbeAllOrdered(s, player, PlayerLocations(s.board, player).value, order);
  }

  /** While both lasers are home a player always has a legal move: turning
      its own laser. */
  lemma AlwaysAMove(s: GameState, player: int, order: seq<Move>)
    requires ValidState(s) && LasersHome(s.board) && player in PLAYER && MoveOrder(order)
    ensures |LegalMoves(s, player, order).value| > 0
  {
    var home := if player == FIRST then (ROWS - 1, COLUMNS - 1) else (0, 0);
    RotationAlwaysMade(s, home, CW, Some(player));
    MadeIsLegal(s, player, order, (home, Rotate(CW)));
  }

  /** A move the validator makes for the player is one of its legal moves. */
  lemma MadeIsLegal(s: GameState, player: int, order: seq<Move>, x: (Coord, Move))
    requires ValidState(s) && MoveOrder(order) && player in PLAYER
    requires InBounds(x.0) && x.1 in LEGAL_MOVES && MakeMove(s, x.0, x.1, Some(player)).made
    ensures x in LegalMoves(s, player, order).value
  {
    LegalMovesExactly(s, player, order);
  }

  /** Whether the move validator makes move m at c for the player, found
      by trying it on a fresh copy of the game. */
  method Probe(lzch: LaserChess, player: int, c: Coord, m: Move) returns (made: bool)
    requires lzch.Valid() && player in PLAYER && InBounds(c) && m in LEGAL_MOVES
    ensures made == MakeMove(lzch.State(), c, m, Some(player)).made
  {
    var copy := new LaserChess.Copy(lzch);
    made := copy.MakeMove(c, m, Some(player));
  }

  /** The moves of the order that are made at c for the player, in order. */
  method ProbeMoves(lzch: LaserChess, player: int, c: Coord, order: seq<Move>)
    returns (found: seq<(Coord, Move)>)
    requires lzch.Valid() && player in PLAYER && InBounds(c)
    requires forall m :: m in order ==> m in LEGAL_MOVES
    ensures found == ProbeCell(lzch.State(), player, c, order)
  {
    found := [];
    for j := 0 to |order|
      invariant found == ProbeCell(lzch.State(), player, c, order[..j])
    {
      assert order[..j + 1][..j] == order[..j];
      var made := Probe(lzch, player, c, order[j]);
      if made {
        found := found + [(c, order[j])];
      }
    }
    assert order[..|order|] == order;
  }

  /** The player's locations are cells of the board. */
  lemma LocationsInBounds(b: Board, player: int)
    requires Grid(b) && player in PLAYER
    ensures forall c :: c in PlayerLocations(b, player).value ==> InBounds(c)
  {
    PlayerLocationsExactly(b, player);
  }

  /** The moves of the order that are made at each of the cells, cell by
      cell. */
  method ProbeCells(lzch: LaserChess, player: int, locs: seq<Coord>, order: seq<Move>)
    returns (legal: seq<(Coord, Move)>)
    requires lzch.Valid() && player in PLAYER
    requires forall c :: c in locs ==> InBounds(c)
    requires forall m :: m in order ==> m in LEGAL_MOVES
    ensures legal == ProbeAll(lzch.State(), player, locs, order)
  {
    legal := [];
    for i := 0 to |locs|
      invariant legal == ProbeAll(lzch.State(), player, locs[..i], order)
    {
      assert locs[..i + 1][..i] == locs[..i];
      var found := ProbeMoves(lzch, player, locs[i], order);
      legal := legal + found;
    }
    assert locs[..|locs|] == locs;
  }

  /** Enumerates the legal moves of the player by probing: for each owned
      cell and each move of the order, a fresh copy of the game tries the
      move with the player's no-entry squares, and the pairs the copy makes
      are kept. The game itself is left as it is. */
  method AllLegalMoves(lzch: LaserChess, player: int, order: seq<Move>)
    returns (moves: Option<seq<(Coord, Move)>>)
    requires lzch.Valid() && MoveOrder(order)
    ensures moves == LegalMoves(lzch.State(), player, order)
  {
    if player !in PLAYER {
      return None;
    }
    var b := Cells(lzch.board);
    LocationsInBounds(b, player);
    var legal := ProbeCells(lzch, player, PlayerLocations(b, player).value, order);
    moves := Some(legal);
  }

  // ------------------------------------------------------ position score

  /** How much a threat one ply ahead is worth against a present one. */
  const FUTURE_SIGHT: real := 0.6

  /** The cells of a set that hold a piece of First. */
  function FirstCells(b: Board, cells: set<Coord>): set<Coord>
    requires Grid(b)
  {
    set c | c in cells && InBounds(c) && b[c.0][c.1] > 0
  }

  /** The cells of a set that hold a piece of Second. */
  function SecondCells(b: Board, cells: set<Coord>): set<Coord>
    requires Grid(b)
  {
    set c | c in cells && InBounds(c) && b[c.0][c.1] < 0
  }

  /** Pieces of First minus pieces of Second among the cells. */
  function Engaged(b: Board, cells: set<Coord>): int
    requires Grid(b)
  {
    |FirstCells(b, cells)| - |SecondCells(b, cells)|
  }

  /** The balance counts each cell at most once, so it lies between minus
      and plus the number of cells. */
  lemma EngagedBound(b: Board, cells: set<Coord>)
    requires Grid(b)
    ensures -|cells| <= Engaged(b, cells) <= |cells|
    ensures |FirstCells(b, cells)| + |SecondCells(b, cells)| <= |cells|
  {
    var f, g := FirstCells(b, cells), SecondCells(b, cells);
    assert f * g == {};
    assert f + g <= cells;
    assert |f + g| == |f| + |g|;
    CardMono(f + g, cells);
  }

  lemma {:induction false} CardMono<T>(x: set<T>, y: set<T>)
    requires x <= y
    ensures |x| <= |y|
    decreases |y|
  {
    if x != {} {
      var e :| e in x;
      CardMono(x - {e}, y - {e});
    }
  }

  /** Taking one cell out of the set changes the balance by that cell's
      owner: +1 for First, -1 for Second, 0 for an empty cell. */
  lemma EngagedStep(b: Board, cells: set<Coord>, c: Coord)
    requires Grid(b) && c in cells && InBounds(c)
    ensures Engaged(b, cells) ==
              Engaged(b, cells - {c}) + (if b[c.0][c.1] > 0 then 1 else if b[c.0][c.1] < 0 then -1 else 0)
  {
    FirstCellsSplit(b, cells, c);
    SecondCellsSplit(b, cells, c);
  }

  lemma FirstCellsSplit(b: Board, cells: set<Coord>, c: Coord)
    requires Grid(b) && c in cells && InBounds(c)
    ensures FirstCells(b, cells) == FirstCells(b, cells - {c}) + (if b[c.0][c.1] > 0 then {c} else {})
    ensures c !in FirstCells(b, cells - {c})
  {
  }

  lemma SecondCellsSplit(b: Board, cells: set<Coord>, c: Coord)
    requires Grid(b) && c in cells && InBounds(c)
    ensures SecondCells(b, cells) == SecondCells(b, cells - {c}) + (if b[c.0][c.1] < 0 then {c} else {})
    ensures c !in SecondCells(b, cells - {c})
  {
  }

  /** The scoring loop over the squares either beam crosses. */
  method CountEngaged(a: array2<int>, cells: set<Coord>) returns (n: int)
    requires a.Length0 == ROWS && a.Length1 == COLUMNS
    requires forall c :: c in cells ==> InBounds(c)
    ensures n == Engaged(Cells(a), cells)
  {
    ghost var b := Cells(a);
    n := 0;
    var left := cells;
    while left != {}
      invariant left <= cells
      invariant n + Engaged(b, left) == Engaged(b, cells)
      decreases |left|
    {
      var c :| c in left;
      EngagedStep(b, left, c);
      if a[c.0, c.1] > 0 {
        n := n + 1;
      } else if a[c.0, c.1] < 0 {
        n := n - 1;
      }
      left := left - {c};
    }
  }

  /** The reciprocal of one more than the squared distance of two cells. */
  function DistRecip(p1: Coord, p2: Coord): (r: real)
    ensures 0.0 < r <= 1.0
    ensures r == 1.0 <==> p1 == p2
  {
    var dy, dx := p1.0 - p2.0, p1.1 - p2.1;
    var d := dx * dx + dy * dy + 1;
    SquaresPositive(dx, dy);
    RecipBounds(d);
    1.0 / d as real
  }

  lemma SquaresPositive(dx: int, dy: int)
    ensures dx * dx + dy * dy >= 0
    ensures dx * dx + dy * dy == 0 <==> dx == 0 && dy == 0
  {
    if dx != 0 { assert dx * dx > 0; }
    if dy != 0 { assert dy * dy > 0; }
  }

  lemma RecipBounds(d: int)
    requires d >= 1
    ensures 0.0 < 1.0 / d as real <= 1.0
    ensures 1.0 / d as real == 1.0 <==> d == 1
  {
  }

  /** How much nearer the end of a beam is to Second's king than to First's. */
  function EvalLaserInKings(end: Coord, king1: Coord, king2: Coord): (r: real)
    ensures -1.0 < r < 1.0
    ensures king1 == king2 ==> r == 0.0
    ensures end == king2 && end != king1 ==> r > 0.0
    ensures end == king1 && end != king2 ==> r < 0.0
  {
    DistRecip(end, king2) - DistRecip(end, king1)
  }

  /** The king-safety term for the player scoring the board, from the ends
      of the two beams and the two kings' cells: a beam ending on the
      player's own king costs a king; a beam of the player's own ending on
      the opponent's king gains the threat of one; otherwise the nearness
      of both beam ends to the kings. A value that is not a player gets no
      term at all. */
  function KingSafety(player: int, end1: Coord, end2: Coord, king1: Coord, king2: Coord): real
  {
    var near := EvalLaserInKings(end1, king1, king2) + EvalLaserInKings(end2, king1, king2);
    if player == FIRST then
      if king1 == end1 || king1 == end2 then -(KING_VALUE as real)
      else if king2 == end1 then KING_VALUE as real * FUTURE_SIGHT
      else near
    else if player == SECOND then
      if king2 == end2 || king2 == end1 then KING_VALUE as real
      else if king1 == end2 then -(KING_VALUE as real * FUTURE_SIGHT)
      else near
    else 0.0
  }

  /** The king-safety term never exceeds a king's worth, and it is the full
      loss of a king (for the player) exactly when the player's own king is
      at the end of either beam. */
  lemma KingSafetyRange(player: int, end1: Coord, end2: Coord, king1: Coord, king2: Coord)
    ensures -(KING_VALUE as real) <= KingSafety(player, end1, end2, king1, king2) <= KING_VALUE as real
    ensures player == FIRST ==>
              (KingSafety(player, end1, end2, king1, king2) == -(KING_VALUE as real) <==>
               king1 == end1 || king1 == end2)
    ensures player == SECOND ==>
              (KingSafety(player, end1, end2, king1, king2) == KING_VALUE as real <==>
               king2 == end1 || king2 == end2)
  {
    assert -1.0 < EvalLaserInKings(end1, king1, king2) < 1.0;
    assert -1.0 < EvalLaserInKings(end2, king1, king2) < 1.0;
  }

  /** The finite score of a board for the player, from the paths of the
      two beams: five per piece of difference, three per engaged piece of
      difference on the squares the beams cross, and the king-safety term
      from the beams' ends. */
  function PositionScore(b: Board, path1: seq<Coord>, path2: seq<Coord>, player: int): real
    requires Grid(b) && |path1| > 0 && |path2| > 0
    requires Contains(b, KING_1) && Contains(b, KING_2)
  {
    FindKingFirst(b, FIRST);
    FindKingFirst(b, SECOND);
    var pieces := CountPlayerPieces(b, FIRST).value - CountPlayerPieces(b, SECOND).value;
    var engaged := Engaged(b, (set c | c in path1) + (set c | c in path2));
    (PIECE_VALUE * pieces) as real + PIECE_VALUE as real * FUTURE_SIGHT * engaged as real +
    KingSafety(player, Last(path1), Last(path2), FindKing(b, FIRST).value, FindKing(b, SECOND).value)
  }

  /** The score of a position for the player whose turn it is: infinite in
      the winner's favour once the game is won, else the position score
      along the beams First and Second would fire now. */
  function Evaluate(s: GameState, player: int): Score
    requires ValidState(s) && KingsOrOver(s)
  {
    if s.winner == FIRST then PosInf
    else if s.winner == SECOND then NegInf
    else
      FireOutcome(s, Some(FIRST), false);
      FireOutcome(s, Some(SECOND), false);
      Fin(PositionScore(s.board, Fire(s, Some(FIRST), false).path, Fire(s, Some(SECOND), false).path, player))
  }

  /** The score is infinite exactly when the game is won, and then in the
      winner's favour whoever scores it. */
  lemma EvaluateWonExactly(s: GameState, player: int)
    requires ValidState(s) && KingsOrOver(s)
    ensures Evaluate(s, player) == PosInf <==> s.winner == FIRST
    ensures Evaluate(s, player) == NegInf <==> s.winner == SECOND
    ensures Evaluate(s, player).Fin? <==> s.winner == 0
  {
  }

  /** The two preview shots, First's then Second's, of a game nobody has
      won: the paths of both beams, with the stored turn left at First. */
  method PreviewBoth(lzch: LaserChess) returns (path1: seq<Coord>, path2: seq<Coord>)
    requires lzch.Valid() && lzch.winner == 0
    modifies lzch, lzch.board
    ensures lzch.Valid() && lzch.board == old(lzch.board)
    ensures lzch.State() == old(lzch.State()).(turn := FIRST)
    ensures path1 == Fire(old(lzch.State()), Some(FIRST), false).path && |path1| > 0
    ensures path2 == Fire(old(lzch.State()), Some(SECOND), false).path && |path2| > 0
  {
    ghost var s := lzch.State();
    PreviewChangesOnlyTurn(s, Some(FIRST));
    FireOutcome(s, Some(FIRST), false);
    var piece1;
    piece1, path1 := lzch.ShootLaserPathPiece(Some(FIRST), false);
    ghost var s1 := lzch.State();
    assert s1 == s.(turn := SECOND);
    PreviewChangesOnlyTurn(s1, Some(SECOND));
    FireOutcome(s1, Some(SECOND), false);
    FireOutcome(s, Some(SECOND), false);
    var piece2;
    piece2, path2 := lzch.ShootLaserPathPiece(Some(SECOND), false);
    assert Fire(s1, Some(SECOND), false).path == Fire(s, Some(SECOND), false).path;
  }

  /** The scoring of a board along two beam paths. */
  method ScorePaths(a: array2<int>, path1: seq<Coord>, path2: seq<Coord>, player: int) returns (v: real)
    requires a.Length0 == ROWS && a.Length1 == COLUMNS && |path1| > 0 && |path2| > 0
    requires forall k :: 0 <= k < |path1| ==> InBounds(path1[k])
    requires forall k :: 0 <= k < |path2| ==> InBounds(path2[k])
    requires Contains(Cells(a), KING_1) && Contains(Cells(a), KING_2)
    ensures v == PositionScore(Cells(a), path1, path2, player)
  {
    var b := Cells(a);
    var firstCounts: int := CountPlayerPieces(b, FIRST).value;
    var secondCounts: int := CountPlayerPieces(b, SECOND).value;
    v := (PIECE_VALUE * (firstCounts - secondCounts)) as real;
    var laser1End, laser2End := path1[|path1| - 1], path2[|path2| - 1];
    var engaged := CountEngaged(a, (set c | c in path1) + (set c | c in path2));
    v := v + PIECE_VALUE as real * FUTURE_SIGHT * engaged as real;
    FindKingFirst(b, FIRST);
    FindKingFirst(b, SECOND);
    var king1, king2 := FindKing(b, FIRST).value, FindKing(b, SECOND).value;
    v := v + KingSafety(player, laser1End, laser2End, king1, king2);
  }

  /** Scores the game for the player. The two preview shots it takes to
      find the beams leave the board and the winner as they are but, while
      nobody has won, leave First as the stored turn. */
  method EvaluateBoard(lzch: LaserChess, player: int) returns (r: Score)
    requires lzch.Valid() && KingsOrOver(lzch.State())
    modifies lzch, lzch.board
    ensures lzch.Valid() && lzch.board == old(lzch.board)
    ensures r == Evaluate(old(lzch.State()), player)
    ensures lzch.State() == if old(lzch.winner) == 0 then old(lzch.State()).(turn := FIRST) else old(lzch.State())
  {
    if lzch.winner != 0 {
      return if lzch.winner == FIRST then PosInf else NegInf;
    }
    ghost var s := lzch.State();
    FireOutcome(s, Some(FIRST), false);
    FireOutcome(s, Some(SECOND), false);
    var path1, path2 := PreviewBoth(lzch);
    var v := ScorePaths(lzch.board, path1, path2, player);
    r := Fin(v);
  }

  // ------------------------------------------------------------- search

  /** A whole turn of the game, the state part of `MoveThenLaser` with an
      explicit mover: a won game stays won by the same player, and the
      lasers stay in their corners. */
  function Turn(s: GameState, m: (Coord, Move), p: int): (r: GameState)
    requires ValidState(s) && InBounds(m.0) && m.1 in LEGAL_MOVES && p in PLAYER
    ensures ValidState(r)
    ensures s.winner != 0 ==> r.winner == s.winner
    ensures LasersHome(s.board) ==> LasersHome(r.board)
  {
    MoveThenLaserOutcome(s, m.0, m.1, Some(p));
    MoveThenLaser(s, m.0, m.1, Some(p)).state
  }

  /** A state of g is over once it is won. */
  ghost predicate OverRule(g: Game<GameState, (Coord, Move)>)
  {
    forall s :: g.over(s) <==> s.winner != 0
  }

  /** The moves of a player in g are its legal moves in the given order. */
  ghost predicate MovesRule(g: Game<GameState, (Coord, Move)>, order: seq<Move>)
    requires MoveOrder(order)
  {
    forall s, p {:trigger LegalMoves(s, p, order)} :: ValidState(s) && p in PLAYER ==>
      g.moves(s, p) == LegalMoves(s, p, order).value
  }

  /** Playing a move in g is a whole turn. */
  ghost predicate PlayRule(g: Game<GameState, (Coord, Move)>)
  {
    forall s, m: (Coord, Move), p {:trigger Turn(s, m, p)} ::
      ValidState(s) && InBounds(m.0) && m.1 in LEGAL_MOVES && p in PLAYER ==> g.play(s, m, p) == Turn(s, m, p)
  }

  /** A leaf of g is scored by Evaluate for the player to move there. */
  ghost predicate LeafRule(g: Game<GameState, (Coord, Move)>)
  {
    forall s, p {:trigger Evaluate(s, p)} :: ValidState(s) && KingsOrOver(s) ==> g.leaf(s, p) == Evaluate(s, p)
  }

  /** The rules a game g follows to be the one the engine searches. */
  ghost predicate LaserRules(g: Game<GameState, (Coord, Move)>, order: seq<Move>)
  {
    MoveOrder(order) && OverRule(g) && MovesRule(g, order) && PlayRule(g) && LeafRule(g)
  }

  /** The game of the engine, with fixed placeholder answers for states it
      never reaches. */
  ghost function LaserGame(order: seq<Move>): (g: Game<GameState, (Coord, Move)>)
    requires MoveOrder(order)
    ensures LaserRules(g, order)
  {
    Game(
      (s: GameState) => s.winner != 0,
      (s: GameState, p: int) => if ValidState(s) && p in PLAYER then LegalMoves(s, p, order).value else [],
      (s: GameState, m: (Coord, Move), p: int) =>
        if ValidState(s) && InBounds(m.0) && m.1 in LEGAL_MOVES && p in PLAYER then Turn(s, m, p) else s,
      (s: GameState, p: int) => if ValidState(s) && KingsOrOver(s) then Evaluate(s, p) else NegInf)
  }

  /** In a game with these rules the child reached by a move is the state
      after the whole turn. */
  lemma PlayedIsTurn(g: Game<GameState, (Coord, Move)>, order: seq<Move>, s: GameState, m: (Coord, Move), p: int)
    requires LaserRules(g, order) && ValidState(s) && InBounds(m.0) && m.1 in LEGAL_MOVES && p in PLAYER
    ensures Played(g, s, m, p) == Turn(s, m, p)
  {
    assert g.play(s, m, p) == Turn(s, m, p);
  }

  /** A fresh copy of the game with a whole turn played on it: the child
      whose search value Child names. */
  method PlayOnCopy(lzch: LaserChess, coord: Coord, move: Move, p: int, ghost g: Game<GameState, (Coord, Move)>,
                    ghost order: seq<Move>, ghost s: GameState)
    returns (child: LaserChess, ghost t: GameState)
    requires lzch.Valid() && s == lzch.State() && KingsOrOver(s) && LasersHome(s.board) && LaserRules(g, order)
    requires InBounds(coord) && move in LEGAL_MOVES && p in PLAYER
    ensures fresh(child) && fresh(child.board) && child.Valid() && t == child.State()
    ensures KingsOrOver(t) && LasersHome(t.board)
    ensures Played(g, s, (coord, move), p) == t
  {
    PlayedIsTurn(g, order, s, (coord, move), p);
    MoveThenLaserOutcome(s, coord, move, Some(p));
    child := new LaserChess.Copy(lzch);
    var legal, piece := child.MoveThenLaser(coord, move, Some(p));
    t := child.State();
  }

  /** One child of the scan: a fresh copy on which the move was played is
      searched one ply shallower for the opponent. */
  method SearchChild(child: LaserChess, ghost t: GameState, ghost s: GameState, ghost m: (Coord, Move),
                     depth: nat, p: int, alpha: Score, beta: Score, order: seq<Move>,
                     ghost g: Game<GameState, (Coord, Move)>)
    returns (v: Score)
    requires child.Valid() && t == child.State() && KingsOrOver(t) && LasersHome(t.board) && LaserRules(g, order)
    requires p in PLAYER && depth > 0 && Played(g, s, m, p) == t
    modifies child, child.board
    ensures v == ChildFirst(g, s, m, p, depth, alpha, beta)
    decreases depth, 0
  {
    var childMove;
    v, childMove := MinimaxFiltered(child, depth - 1, -p, alpha, beta, order, g, t);
    ChildFirstOf(g, s, m, p, depth, alpha, beta, t);
  }

  /** The value of one child of a node: the move played on a fresh copy of
      the game, searched one ply shallower for the opponent. */
  method ChildValue(lzch: LaserChess, depth: nat, p: int, m: (Coord, Move), alpha: Score, beta: Score,
                    order: seq<Move>, ghost g: Game<GameState, (Coord, Move)>, ghost s: GameState)
    returns (v: Score)
    requires lzch.Valid() && s == lzch.State() && KingsOrOver(s) && LasersHome(s.board) && LaserRules(g, order)
    requires p in PLAYER && depth > 0 && InBounds(m.0) && m.1 in LEGAL_MOVES
    ensures v == ChildFirst(g, s, m, p, depth, alpha, beta)
    decreases depth, 1
  {
    var child, t := PlayOnCopy(lzch, m.0, m.1, p, g, order, s);
    v := SearchChild(child, t, s, m, depth, p, alpha, beta, order, g);
  }

  /** One pass of the loop over the moves of a node: the child of move
      ms[i] is searched with the window (a, b); its score is taken when no
      move was chosen yet or when it is strictly better (First keeps the
      maximum, Second the minimum); the window narrows; and the loop stops
      once it closes. */
  method ScanOne(lzch: LaserChess, depth: nat, p: int, ms: seq<(Coord, Move)>, i: nat, a: Score, b: Score,
                 value: Score, best: Option<(Coord, Move)>,
                 order: seq<Move>, ghost g: Game<GameState, (Coord, Move)>, ghost s: GameState)
    returns (value': Score, best': Option<(Coord, Move)>, a': Score, b': Score, stop: bool)
    requires lzch.Valid() && s == lzch.State() && KingsOrOver(s) && LasersHome(s.board) && LaserRules(g, order)
    requires p in PLAYER && depth > 0 && i < |ms| && InBounds(ms[i].0) && ms[i].1 in LEGAL_MOVES
    ensures stop ==> ScanFirst(g, s, p, depth, ms[i..], a, b, Choice(value, best)) == Choice(value', best')
    ensures !stop ==> ScanFirst(g, s, p, depth, ms[i..], a, b, Choice(value, best)) ==
                      ScanFirst(g, s, p, depth, ms[i + 1..], a', b', Choice(value', best'))
    decreases depth, 2
  {
    var curEval := ChildValue(lzch, depth, p, ms[i], a, b, order, g, s);
    value', best', a', b' := value, best, a, b;
    if best.None? || Improves(p, curEval, value) {
      value' := curEval;
      best' := Some(ms[i]);
    }
    if p == FIRST {
      a' := Max(a, curEval);
    } else {
      b' := Min(b, curEval);
    }
    ScanFirstStep(g, s, p, depth, ms[i..], a, b, Choice(value, best), curEval, a', b', Choice(value', best'));
    assert ms[i..][1..] == ms[i + 1..];
    stop := Le(b', a');
  }

  /** The loop over the moves of a node, from the worst score and no move,
      until the moves run out or the window closes. */
  method ScanMoves(lzch: LaserChess, depth: nat, p: int, ms: seq<(Coord, Move)>, alpha: Score, beta: Score,
                   order: seq<Move>, ghost g: Game<GameState, (Coord, Move)>, ghost s: GameState)
    returns (value: Score, best: Option<(Coord, Move)>)
    requires lzch.Valid() && s == lzch.State() && KingsOrOver(s) && LasersHome(s.board) && LaserRules(g, order)
    requires p in PLAYER && depth > 0
    requires forall k :: 0 <= k < |ms| ==> InBounds(ms[k].0) && ms[k].1 in LEGAL_MOVES
    ensures Choice(value, best) == ScanFirst(g, s, p, depth, ms, alpha, beta, Choice(Worst(p), None))
    decreases depth, 3
  {
    value := Worst(p);
    best := None;
    var a, b := alpha, beta;
    var i := 0;
    while i < |ms|
      invariant 0 <= i <= |ms|
      invariant ScanFirst(g, s, p, depth, ms[i..], a, b, Choice(value, best)) ==
                ScanFirst(g, s, p, depth, ms, alpha, beta, Choice(Worst(p), None))
    {
      var stop;
      value, best, a, b, stop := ScanOne(lzch, depth, p, ms, i, a, b, value, best, order, g, s);
      if stop {
        return;
      }
      i := i + 1;
    }
  }

  /** The legal moves of a player are pairs of a board cell and a legal move. */
  lemma LegalMovesWellFormed(s: GameState, player: int, order: seq<Move>)
    requires ValidState(s) && MoveOrder(order) && player in PLAYER
    ensures var ms := LegalMoves(s, player, order).value;
            forall k :: 0 <= k < |ms| ==> InBounds(ms[k].0) && ms[k].1 in LEGAL_MOVES
  {
    var ms := LegalMoves(s, player, order).value;
    LegalMovesExactly(s, player, order);
    forall k | 0 <= k < |ms|
      ensures InBounds(ms[k].0) && ms[k].1 in LEGAL_MOVES
    {
      assert ms[k] in ms;
    }
  }

  /** A node the engine searches is scanned over the player's legal moves,
      and the scan returns one of them. */
  lemma SearchedNode(g: Game<GameState, (Coord, Move)>, order: seq<Move>, s: GameState, p: int, depth: nat,
                     alpha: Score, beta: Score)
    requires LaserRules(g, order) && ValidState(s) && LasersHome(s.board) && p in PLAYER
    requires s.winner == 0 && depth > 0
    ensures g.moves(s, p) == LegalMoves(s, p, order).value
    ensures AlphaBetaFirst(g, s, p, depth, alpha, beta) ==
            ScanFirst(g, s, p, depth, LegalMoves(s, p, order).value, alpha, beta, Choice(Worst(p), None))
    ensures AlphaBetaFirst(g, s, p, depth, alpha, beta).move.Some?
  {
    assert g.moves(s, p) == LegalMoves(s, p, order).value;
    assert !g.over(s);
    AlwaysAMove(s, p, order);
    AlphaBetaFirstMove(g, s, p, depth, alpha, beta);
  }

  /** The alpha-beta search of the engine: at a won game or at depth 0
      the board's score; otherwise the scan over the legal moves of the
      order, each played on a fresh copy and searched one ply shallower
      for the opponent. The result is the search of the game, and the game
      is left as it was except for the stored turn a leaf's scoring sets.
      A searched node always has a move to return: with both lasers home
      each player can at least turn its laser. */
  method MinimaxFiltered(lzch: LaserChess, depth: nat, maxPlayer: int, alpha: Score, beta: Score,
                         order: seq<Move>, ghost g: Game<GameState, (Coord, Move)>, ghost s: GameState)
    returns (value: Score, best: Option<(Coord, Move)>)
    requires lzch.Valid() && s == lzch.State() && KingsOrOver(s) && LasersHome(s.board) && LaserRules(g, order)
    requires s.winner == 0 && depth > 0 ==> maxPlayer in PLAYER
    modifies lzch, lzch.board
    ensures lzch.Valid() && lzch.board == old(lzch.board)
    ensures lzch.State() == if s.winner == 0 && depth == 0 then s.(turn := FIRST) else s
    ensures Choice(value, best) == AlphaBetaFirst(g, s, maxPlayer, depth, alpha, beta)
    ensures best.Some? <==> s.winner == 0 && depth > 0
    decreases depth, 4
  {
    if lzch.winner != 0 || depth == 0 {
      value := EvaluateBoard(lzch, maxPlayer);
      best := None;
      return;
    }
    var moves := AllLegalMoves(lzch, maxPlayer, order);
    LegalMovesWellFormed(s, maxPlayer, order);
    SearchedNode(g, order, s, maxPlayer, depth, alpha, beta);
    value, best := ScanMoves(lzch, depth, maxPlayer, moves.value, alpha, beta, order, g, s);
  }

  /** The engine's entry point: alpha-beta with the full window over the
      legal moves in the given order. The score is the minimax value of the
      position for the player (searched depth plies, each leaf scored for
      the player to move there). A move is returned exactly when the game is
      not won and depth > 0; it is one of the player's legal moves, and the
      whole turn it makes leads to a position whose minimax value one ply
      shallower, for the opponent, is that score. */
  method BestMove(lzch: LaserChess, depth: nat, maxPlayer: int, order: seq<Move>)
    returns (value: Score, best: Option<(Coord, Move)>)
    requires lzch.Valid() && KingsOrOver(lzch.State()) && LasersHome(lzch.State().board) && MoveOrder(order)
    requires lzch.winner == 0 && depth > 0 ==> maxPlayer in PLAYER
    modifies lzch, lzch.board
    ensures lzch.Valid() && lzch.board == old(lzch.board)
    ensures lzch.State() == if old(lzch.winner) == 0 && depth == 0 then old(lzch.State()).(turn := FIRST) else old(lzch.State())
    ensures maxPlayer in PLAYER ==> value == Minimax(LaserGame(order), old(lzch.State()), maxPlayer, depth)
    ensures best.Some? <==> old(lzch.winner) == 0 && depth > 0
    ensures best.Some? ==>
              best.value in LegalMoves(old(lzch.State()), maxPlayer, order).value &&
              maxPlayer in PLAYER && InBounds(best.value.0) && best.value.1 in LEGAL_MOVES &&
              Minimax(LaserGame(order), Turn(old(lzch.State()), best.value, maxPlayer), -maxPlayer, depth - 1) == value
    ensures best.Some? ==>
              Earliest(LaserGame(order), old(lzch.State()), maxPlayer, depth,
                       LegalMoves(old(lzch.State()), maxPlayer, order).value, best.value, value)
  {
    ghost var g := LaserGame(order);
    ghost var s := lzch.State();
    value, best := MinimaxFiltered(lzch, depth, maxPlayer, NegInf, PosInf, order, g, s);
    if maxPlayer in PLAYER {
      ChosenMoveIsOptimal(g, s, maxPlayer, depth);
    }
    if best.Some? {
      assert g.moves(s, maxPlayer) == LegalMoves(s, maxPlayer, order).value;
      LegalMovesExactly(s, maxPlayer, order);
      PlayedIsTurn(g, order, s, best.value, maxPlayer);
      BestIsEarliest(order, s, maxPlayer, depth);
    }
  }

  /** The root search's move is the earliest legal move, in the enumeration
      order, whose resulting position has the root's value: every legal move
      listed before it leads to a position strictly worse for the player. */
  lemma BestIsEarliest(order: seq<Move>, s: GameState, p: int, depth: nat)
    requires MoveOrder(order) && ValidState(s) && p in PLAYER && depth > 0
    ensures var r := AlphaBetaFirst(LaserGame(order), s, p, depth, NegInf, PosInf);
            r.move.Some? ==> Earliest(LaserGame(order), s, p, depth, LegalMoves(s, p, order).value, r.move.value, r.value)
  {
    var g := LaserGame(order);
    ChosenMoveIsOptimal(g, s, p, depth);
    assert g.moves(s, p) == LegalMoves(s, p, order).value;
  }
}
