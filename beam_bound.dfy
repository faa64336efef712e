/** The shot's loop has no step bound: it runs while the beam is on the
    board. This module proves that the beam from either laser always leaves
    the board or stops within MAX_BEAM cells, so the bounded Walk that Fire
    uses is the whole, unbounded beam. The argument: the reflection tables
    are reversible, so every beam state has at most one predecessor; the
    laser's first state has none on the board; hence no state repeats, and
    there are only MAX_BEAM states. */
module BeamBound {
  import opened Consts
  import opened Pieces
  import opened Rules

  /** The beam head one cell further on, when the beam passes through q. */
  function Next(b: Board, q: Ray): (n: Ray)
    requires IsBoard(b) && InBounds(q.at) && Interact(Cell(b, q.at), q.dir).Pass?
    ensures Cardinal(q.dir) ==> Cardinal(n.dir)
    ensures TupleAdd(n.at, Neg(n.dir)) == q.at
  {
    var e := Interact(Cell(b, q.at), q.dir).dir;
    InteractOutcomes(Cell(b, q.at), q.dir);
    Ray(TupleAdd(q.at, e), e)
  }

  /** The states a beam from r takes on the board, at most fuel + 1 of them:
      each is followed by the next while the beam passes through. */
  function Rays(b: Board, r: Ray, fuel: nat): (rs: seq<Ray>)
    requires IsBoard(b)
    ensures forall k :: 0 <= k < |rs| ==> InBounds(rs[k].at)
    ensures Cardinal(r.dir) ==> forall k :: 0 <= k < |rs| ==> Cardinal(rs[k].dir)
    ensures |rs| > 0 ==> rs[0] == r
    ensures forall k :: 0 <= k < |rs| - 1 ==>
              Interact(Cell(b, rs[k].at), rs[k].dir).Pass? && rs[k + 1] == Next(b, rs[k])
    ensures Walk(b, r, fuel).end == OutOfFuel ==> |rs| == fuel + 1
    decreases fuel
  {
    if !InBounds(r.at) then []
    else if fuel == 0 then [r]
    else
      match Interact(Cell(b, r.at), r.dir)
      case Halt(_) => [r]
      case Pass(d) => [r] + Rays(b, Ray(TupleAdd(r.at, d), d), fuel - 1)
  }

  /** A beam state has at most one predecessor. */
  lemma PredecessorUnique(b: Board, p: Ray, q: Ray)
    requires IsBoard(b) && InBounds(p.at) && InBounds(q.at) && Cardinal(p.dir) && Cardinal(q.dir)
    requires Interact(Cell(b, p.at), p.dir).Pass? && Interact(Cell(b, q.at), q.dir).Pass?
    ensures Next(b, p) == Next(b, q) ==> p == q
  {
    if Next(b, p) == Next(b, q) {
      InteractInjective(Cell(b, p.at), p.dir, q.dir);
    }
  }

  /** A state whose cell behind it is off the board has no predecessor. */
  lemma NoPredecessor(b: Board, q: Ray, r: Ray)
    requires IsBoard(b) && InBounds(q.at) && Interact(Cell(b, q.at), q.dir).Pass?
    requires !InBounds(TupleAdd(r.at, Neg(r.dir)))
    ensures Next(b, q) != r
  {
  }

  /** A beam that enters the board from outside never repeats a state. */
  lemma {:induction false} RaysDistinct(b: Board, r: Ray, fuel: nat, i: nat, j: nat)
    requires IsBoard(b) && Cardinal(r.dir) && !InBounds(TupleAdd(r.at, Neg(r.dir)))
    requires i < j < |Rays(b, r, fuel)|
    ensures Rays(b, r, fuel)[i] != Rays(b, r, fuel)[j]
    decreases i
  {
    var rs := Rays(b, r, fuel);
    assert InBounds(rs[j - 1].at) && Interact(Cell(b, rs[j - 1].at), rs[j - 1].dir).Pass?;
    assert rs[j] == Next(b, rs[j - 1]);
    if i == 0 {
      NoPredecessor(b, rs[j - 1], r);
    } else {
      assert InBounds(rs[i - 1].at) && Interact(Cell(b, rs[i - 1].at), rs[i - 1].dir).Pass?;
      assert rs[i] == Next(b, rs[i - 1]);
      assert Cardinal(rs[i - 1].dir) && Cardinal(rs[j - 1].dir);
      RaysDistinct(b, r, fuel, i - 1, j - 1);
      PredecessorUnique(b, rs[i - 1], rs[j - 1]);
    }
  }

  function DirIndex(d: Vec): int
  {
    if d == N then 0 else if d == E then 1 else if d == S then 2 else 3
  }

  /** A numbering of the on-board beam states. */
  function RayIndex(q: Ray): int
  {
    (q.at.0 * COLUMNS + q.at.1) * 4 + DirIndex(q.dir)
  }

  lemma RayIndexInRange(q: Ray)
    requires InBounds(q.at)
    ensures 0 <= RayIndex(q) < MAX_BEAM
  {
  }

  lemma RayIndexInjective(p: Ray, q: Ray)
    requires InBounds(p.at) && InBounds(q.at) && Cardinal(p.dir) && Cardinal(q.dir)
    ensures RayIndex(p) == RayIndex(q) ==> p == q
  {
    assert RayIndex(p) == p.at.0 * 40 + p.at.1 * 4 + DirIndex(p.dir);
    assert RayIndex(q) == q.at.0 * 40 + q.at.1 * 4 + DirIndex(q.dir);
  }

  lemma {:induction false} DistinctCard(xs: seq<int>)
    requires forall i, j :: 0 <= i < j < |xs| ==> xs[i] != xs[j]
    ensures |(set x | x in xs)| == |xs|
  {
    if |xs| > 0 {
      var ys := xs[..|xs| - 1];
      DistinctCard(ys);
      assert (set x | x in xs) == (set x | x in ys) + {xs[|xs| - 1]};
    }
  }

  /** The integers 0 .. n-1. */
  function Range(n: nat): (r: set<int>)
    ensures forall i :: i in r <==> 0 <= i < n
    ensures |r| == n
  {
    if n == 0 then {} else Range(n - 1) + {n - 1}
  }

  lemma SubsetCard(a: set<int>, c: set<int>)
    requires a <= c
    ensures |a| <= |c|
  {
    assert c == a + (c - a);
  }

  /** No more than MAX_BEAM distinct on-board states exist. */
  lemma RaysBounded(b: Board, r: Ray, fuel: nat)
    requires IsBoard(b) && Cardinal(r.dir) && !InBounds(TupleAdd(r.at, Neg(r.dir)))
    ensures |Rays(b, r, fuel)| <= MAX_BEAM
  {
    var rs := Rays(b, r, fuel);
    var xs := seq(|rs|, k requires 0 <= k < |rs| => RayIndex(rs[k]));
    forall i, j | 0 <= i < j < |xs|
      ensures xs[i] != xs[j]
    {
      RaysDistinct(b, r, fuel, i, j);
      RayIndexInjective(rs[i], rs[j]);
    }
    DistinctCard(xs);
    forall x | x in xs
      ensures 0 <= x < MAX_BEAM
    {
      var k :| 0 <= k < |xs| && xs[k] == x;
      RayIndexInRange(rs[k]);
    }
    SubsetCard((set x | x in xs), Range(MAX_BEAM));
  }

  /** The laser's first beam state lies on the edge, facing inward. */
  lemma LaserEntersFromOutside(b: Board, shooter: int)
    requires IsBoard(b)
    ensures var r := LaserStart(b, shooter);
            !InBounds(TupleAdd(r.at, Neg(r.dir)))
  {
  }

  /** The beam from either laser never needs more than MAX_BEAM steps. */
  lemma BeamNeverExhausted(b: Board, shooter: int)
    requires IsBoard(b)
    ensures Walk(b, LaserStart(b, shooter), MAX_BEAM).end != OutOfFuel
  {
    var r := LaserStart(b, shooter);
    LaserEntersFromOutside(b, shooter);
    RaysBounded(b, r, MAX_BEAM);
  }
}
