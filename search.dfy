/** Depth-limited game-tree search: the plain minimax value as a reference
    definition, and the fail-soft alpha-beta scan the engine's search runs,
    proved to agree with it. The game is abstract: whether a state is over,
    the moves a player may make in it (in order), the state a move leads to,
    and the score of a leaf, all seen from the player at the node. A larger
    score is better for First (1), a smaller one for Second (-1). */
module Search {
  import opened Consts
  import opened Wrappers

  /** A score: a real number, or one of the two infinities a win scores. */
  datatype Score = NegInf | Fin(v: real) | PosInf

  predicate Le(a: Score, b: Score)
  {
    a == NegInf || b == PosInf || (a.Fin? && b.Fin? && a.v <= b.v)
  }

  predicate Lt(a: Score, b: Score)
  {
    !Le(b, a)
  }

  function Max(a: Score, b: Score): (r: Score)
    ensures Le(a, r) && Le(b, r) && (r == a || r == b)
  {
    if Le(a, b) then b else a
  }

  function Min(a: Score, b: Score): (r: Score)
    ensures Le(r, a) && Le(r, b) && (r == a || r == b)
  {
    if Le(a, b) then a else b
  }

  /** The scores are totally ordered. */
  lemma ScoreOrder(a: Score, b: Score, c: Score)
    ensures Le(a, a)
    ensures Le(a, b) || Le(b, a)
    ensures Le(a, b) && Le(b, a) ==> a == b
    ensures Le(a, b) && Le(b, c) ==> Le(a, c)
  {
  }

  datatype Game<!S, !M> = Game(
    over: S -> bool,
    moves: (S, int) -> seq<M>,
    play: (S, M, int) -> S,
    leaf: (S, int) -> Score)

  /** The score a player starts from before any move is looked at. */
  function Worst(p: int): Score
  {
    if p == FIRST then NegInf else PosInf
  }

  /** The better of two scores for player p. */
  function Better(p: int, a: Score, b: Score): Score
  {
    if p == FIRST then Max(a, b) else Min(a, b)
  }

  /** The minimax value of s for player p to move, searching depth plies. */
  function Minimax<S, M>(g: Game<S, M>, s: S, p: int, depth: nat): Score
    decreases depth, 1
  {
    if depth == 0 || g.over(s) then g.leaf(s, p)
    else BestOf(g, s, p, depth, g.moves(s, p))
  }

  /** The best minimax value for p among the children by moves ms. */
  function BestOf<S, M>(g: Game<S, M>, s: S, p: int, depth: nat, ms: seq<M>): Score
    requires depth > 0
    decreases depth, 0, |ms|
  {
    if |ms| == 0 then Worst(p)
    else Better(p, Minimax(g, g.play(s, ms[0], p), -p, depth - 1), BestOf(g, s, p, depth, ms[1..]))
  }

  /** A search result: the score and the move that reached it (none at a
      leaf, or when there were no moves). */
  datatype Choice<M> = Choice(value: Score, move: Option<M>)

  /** Whether the scan takes a child's score v over the best so far: First
      on v >= best, Second on v <= best, so a later tie replaces the earlier
      move. */
  predicate Takes(p: int, v: Score, best: Score)
  {
    if p == FIRST then Le(best, v) else Le(v, best)
  }

  /** The alpha-beta search as the engine runs it. */
  function AlphaBeta<S, M>(g: Game<S, M>, s: S, p: int, depth: nat, alpha: Score, beta: Score): Choice<M>
    decreases depth, 2
  {
    if depth == 0 || g.over(s) then Choice(g.leaf(s, p), None)
    else Scan(g, s, p, depth, g.moves(s, p), alpha, beta, Choice(Worst(p), None))
  }

  /** The loop over the moves ms, with the window and the best so far. */
  function Scan<S, M>(g: Game<S, M>, s: S, p: int, depth: nat, ms: seq<M>,
                      alpha: Score, beta: Score, best: Choice<M>): Choice<M>
    requires depth > 0
    decreases depth, 1, |ms|
  {
    if |ms| == 0 then best
    else
      var v := Child(g, s, ms[0], p, depth, alpha, beta);
      var best' := if Takes(p, v, best.value) then Choice(v, Some(ms[0])) else best;
      var alpha' := if p == FIRST then Max(alpha, v) else alpha;
      var beta' := if p == FIRST then beta else Min(beta, v);
      if Le(beta', alpha') then best'
      else Scan(g, s, p, depth, ms[1..], alpha', beta', best')
  }

  /** The state reached from s by p playing m. */
  function Played<S, M>(g: Game<S, M>, s: S, m: M, p: int): S
  {
    g.play(s, m, p)
  }

  /** The search value of the child reached by move m. */
  function Child<S, M>(g: Game<S, M>, s: S, m: M, p: int, depth: nat, alpha: Score, beta: Score): Score
    requires depth > 0
    decreases depth, 0
  {
    AlphaBeta(g, Played(g, s, m, p), -p, depth - 1, alpha, beta).value
  }


  /** The fail-soft relation between a search result r and the true value
      v for the window (alpha, beta). */
  predicate FailSoft(r: Score, v: Score, alpha: Score, beta: Score)
  {
    (Le(r, alpha) ==> Le(v, r)) &&
    (Lt(alpha, r) && Lt(r, beta) ==> v == r) &&
    (Le(beta, r) ==> Le(r, v))
  }

  /** The fail-soft property: a search with window (alpha, beta) returns the
      exact minimax value when it lands strictly inside the window, an upper
      bound on it when it lands at or below alpha, and a lower bound on it
      when it lands at or above beta. */
  lemma {:induction false} AlphaBetaBounds<S, M>(g: Game<S, M>, s: S, p: int, depth: nat, alpha: Score, beta: Score)
    requires p in PLAYER && Lt(alpha, beta)
    ensures FailSoft(AlphaBeta(g, s, p, depth, alpha, beta).value, Minimax(g, s, p, depth), alpha, beta)
    decreases depth, 1
  {
    if depth > 0 && !g.over(s) {
      ScanBounds(g, s, p, depth, g.moves(s, p), alpha, beta, Choice(Worst(p), None));
    }
  }

  /** One step of First's scan that cuts off: the child's score v reached beta. */
  lemma CutFirst(alpha: Score, beta: Score, best: Score, v: Score, vc: Score, t: Score)
    requires Lt(alpha, beta) && Le(best, alpha) && FailSoft(v, vc, alpha, beta)
    requires Le(beta, Max(alpha, v))
    ensures FailSoft(v, Max(best, Max(vc, t)), alpha, beta) && Le(best, v)
  {
  }

  /** One step of First's scan that goes on to the remaining children, whose
      scan result r relates to their best value t as the narrowed window says. */
  lemma StepFirst(alpha: Score, beta: Score, best: Score, v: Score, vc: Score, t: Score, r: Score)
    requires Lt(alpha, beta) && Le(best, alpha) && FailSoft(v, vc, alpha, beta)
    requires Lt(Max(alpha, v), beta)
    requires var best' := if Le(best, v) then v else best;
             FailSoft(r, Max(best', t), Max(alpha, v), beta) && Le(best', r)
    ensures FailSoft(r, Max(best, Max(vc, t)), alpha, beta) && Le(best, r)
  {
    ScoreOrder(best, v, r);
    ScoreOrder(alpha, v, r);
  }

  /** One step of Second's scan that cuts off: v reached alpha. */
  lemma CutSecond(alpha: Score, beta: Score, best: Score, v: Score, vc: Score, t: Score)
    requires Lt(alpha, beta) && Le(beta, best) && FailSoft(v, vc, alpha, beta)
    requires Le(Min(beta, v), alpha)
    ensures FailSoft(v, Min(best, Min(vc, t)), alpha, beta) && Le(v, best)
  {
  }

  /** One step of Second's scan that goes on to the remaining children. */
  lemma StepSecond(alpha: Score, beta: Score, best: Score, v: Score, vc: Score, t: Score, r: Score)
    requires Lt(alpha, beta) && Le(beta, best) && FailSoft(v, vc, alpha, beta)
    requires Lt(alpha, Min(beta, v))
    requires var best' := if Le(v, best) then v else best;
             FailSoft(r, Min(best', t), alpha, Min(beta, v)) && Le(r, best')
    ensures FailSoft(r, Min(best, Min(vc, t)), alpha, beta) && Le(r, best)
  {
    ScoreOrder(best, v, r);
    ScoreOrder(beta, v, r);
  }

  /** The scan's result against the best of the best so far and the
      minimax values of the remaining children. */
  lemma {:induction false} ScanBounds<S, M>(g: Game<S, M>, s: S, p: int, depth: nat, ms: seq<M>,
                                            alpha: Score, beta: Score, best: Choice<M>)
    requires depth > 0 && p in PLAYER && Lt(alpha, beta)
    requires p == FIRST ==> Le(best.value, alpha)
    requires p != FIRST ==> Le(beta, best.value)
    ensures var r := Scan(g, s, p, depth, ms, alpha, beta, best).value;
            FailSoft(r, Better(p, best.value, BestOf(g, s, p, depth, ms)), alpha, beta) &&
            (p == FIRST ==> Le(best.value, r)) &&
            (p != FIRST ==> Le(r, best.value))
    decreases depth, 0, |ms|
  {
    if |ms| > 0 {
      var c := g.play(s, ms[0], p);
      var v := AlphaBeta(g, c, -p, depth - 1, alpha, beta).value;
      var vc := Minimax(g, c, -p, depth - 1);
      var t := BestOf(g, s, p, depth, ms[1..]);
      AlphaBetaBounds(g, c, -p, depth - 1, alpha, beta);
      var best' := if Takes(p, v, best.value) then Choice(v, Some(ms[0])) else best;
      var alpha' := if p == FIRST then Max(alpha, v) else alpha;
      var beta' := if p == FIRST then beta else Min(beta, v);
      if Le(beta', alpha') {
        if p == FIRST {
          CutFirst(alpha, beta, best.value, v, vc, t);
        } else {
          CutSecond(alpha, beta, best.value, v, vc, t);
        }
      } else {
        ScanBounds(g, s, p, depth, ms[1..], alpha', beta', best');
        var r := Scan(g, s, p, depth, ms[1..], alpha', beta', best').value;
        if p == FIRST {
          StepFirst(alpha, beta, best.value, v, vc, t, r);
        } else {
          StepSecond(alpha, beta, best.value, v, vc, t, r);
        }
      }
    }
  }

  /** Searched with the full window, alpha-beta returns the minimax value. */
  lemma AlphaBetaIsMinimax<S, M>(g: Game<S, M>, s: S, p: int, depth: nat)
    requires p in PLAYER
    ensures AlphaBeta(g, s, p, depth, NegInf, PosInf).value == Minimax(g, s, p, depth)
  {
    AlphaBetaBounds(g, s, p, depth, NegInf, PosInf);
  }

  /** The move the scan returns is the one it started with or one of ms;
      starting from the worst score, the first child is always taken. */
  lemma {:induction false} ScanMove<S, M>(g: Game<S, M>, s: S, p: int, depth: nat, ms: seq<M>,
                                          alpha: Score, beta: Score, best: Choice<M>)
    requires depth > 0
    ensures var r := Scan(g, s, p, depth, ms, alpha, beta, best);
            (r.move == best.move || (r.move.Some? && r.move.value in ms)) &&
            (best.move.Some? || (|ms| > 0 && best.value == Worst(p)) ==> r.move.Some?)
    decreases |ms|
  {
    if |ms| > 0 {
      var v := AlphaBeta(g, g.play(s, ms[0], p), -p, depth - 1, alpha, beta).value;
      var best' := if Takes(p, v, best.value) then Choice(v, Some(ms[0])) else best;
      var alpha' := if p == FIRST then Max(alpha, v) else alpha;
      var beta' := if p == FIRST then beta else Min(beta, v);
      if !Le(beta', alpha') {
        ScanMove(g, s, p, depth, ms[1..], alpha', beta', best');
      }
    }
  }

  /** Alpha-beta returns a move exactly when the node is searched and has
      moves, and the move is one of them. */
  lemma AlphaBetaMove<S, M>(g: Game<S, M>, s: S, p: int, depth: nat, alpha: Score, beta: Score)
    ensures var r := AlphaBeta(g, s, p, depth, alpha, beta);
            (r.move.Some? <==> depth > 0 && !g.over(s) && |g.moves(s, p)| > 0) &&
            (r.move.Some? ==> r.move.value in g.moves(s, p))
  {
    if depth > 0 && !g.over(s) {
      ScanMove(g, s, p, depth, g.moves(s, p), alpha, beta, Choice(Worst(p), None));
    }
  }

  /** Whether v is strictly better for p than best. */
  predicate Improves(p: int, v: Score, best: Score)
  {
    if p == FIRST then Lt(best, v) else Lt(v, best)
  }

  /** Alpha-beta search that keeps the first of equally good moves: a child
      replaces the best so far only when none was chosen yet or it is
      strictly better. */
  function AlphaBetaFirst<S, M>(g: Game<S, M>, s: S, p: int, depth: nat, alpha: Score, beta: Score): Choice<M>
    decreases depth, 2
  {
    if depth == 0 || g.over(s) then Choice(g.leaf(s, p), None)
    else ScanFirst(g, s, p, depth, g.moves(s, p), alpha, beta, Choice(Worst(p), None))
  }

  function ScanFirst<S, M>(g: Game<S, M>, s: S, p: int, depth: nat, ms: seq<M>,
                           alpha: Score, beta: Score, best: Choice<M>): Choice<M>
    requires depth > 0
    decreases depth, 1, |ms|
  {
    if |ms| == 0 then best
    else
      var v := ChildFirst(g, s, ms[0], p, depth, alpha, beta);
      var best' := if best.move.None? || Improves(p, v, best.value) then Choice(v, Some(ms[0])) else best;
      var alpha' := if p == FIRST then Max(alpha, v) else alpha;
      var beta' := if p == FIRST then beta else Min(beta, v);
      if Le(beta', alpha') then best'
      else ScanFirst(g, s, p, depth, ms[1..], alpha', beta', best')
  }

  /** The first-wins search value of the child reached by move m. */
  function ChildFirst<S, M>(g: Game<S, M>, s: S, m: M, p: int, depth: nat, alpha: Score, beta: Score): Score
    requires depth > 0
    decreases depth, 0
  {
    AlphaBetaFirst(g, Played(g, s, m, p), -p, depth - 1, alpha, beta).value
  }

  /** The child's value is the first-wins search of the state the move
      reaches. */
  lemma ChildFirstOf<S, M>(g: Game<S, M>, s: S, m: M, p: int, depth: nat, alpha: Score, beta: Score, t: S)
    requires depth > 0 && Played(g, s, m, p) == t
    ensures ChildFirst(g, s, m, p, depth, alpha, beta) == AlphaBetaFirst(g, t, -p, depth - 1, alpha, beta).value
  {
  }

  /** One step of the first-wins scan over a nonempty list of moves: the
      first child is scored, kept when nothing was chosen yet or when it is
      strictly better, the window narrows, and the scan either stops or goes
      on with the rest. */
  lemma ScanFirstStep<S, M>(g: Game<S, M>, s: S, p: int, depth: nat, ms: seq<M>,
                            alpha: Score, beta: Score, best: Choice<M>,
                            v: Score, alpha': Score, beta': Score, best': Choice<M>)
    requires depth > 0 && |ms| > 0 && v == ChildFirst(g, s, ms[0], p, depth, alpha, beta)
    requires best' == if best.move.None? || Improves(p, v, best.value) then Choice(v, Some(ms[0])) else best
    requires alpha' == (if p == FIRST then Max(alpha, v) else alpha)
    requires beta' == (if p == FIRST then beta else Min(beta, v))
    ensures Le(beta', alpha') ==> ScanFirst(g, s, p, depth, ms, alpha, beta, best) == best'
    ensures !Le(beta', alpha') ==>
              ScanFirst(g, s, p, depth, ms, alpha, beta, best) == ScanFirst(g, s, p, depth, ms[1..], alpha', beta', best')
  {
  }

  /** The move the first-wins scan returns is the one it started with or
      one of ms, and once there is a move to look at it returns one. */
  lemma {:induction false} ScanFirstMove<S, M>(g: Game<S, M>, s: S, p: int, depth: nat, ms: seq<M>,
                                               alpha: Score, beta: Score, best: Choice<M>)
    requires depth > 0
    ensures var r := ScanFirst(g, s, p, depth, ms, alpha, beta, best);
            (r.move == best.move || (r.move.Some? && r.move.value in ms)) &&
            (best.move.Some? || |ms| > 0 ==> r.move.Some?)
    decreases |ms|
  {
    if |ms| > 0 {
      var v := ChildFirst(g, s, ms[0], p, depth, alpha, beta);
      var best' := if best.move.None? || Improves(p, v, best.value) then Choice(v, Some(ms[0])) else best;
      var alpha' := if p == FIRST then Max(alpha, v) else alpha;
      var beta' := if p == FIRST then beta else Min(beta, v);
      if !Le(beta', alpha') {
        ScanFirstMove(g, s, p, depth, ms[1..], alpha', beta', best');
      }
    }
  }

  /** The first-wins search returns a move exactly when the node is
      searched and has moves, whatever the window, and the move is one of
      them. */
  lemma AlphaBetaFirstMove<S, M>(g: Game<S, M>, s: S, p: int, depth: nat, alpha: Score, beta: Score)
    ensures var r := AlphaBetaFirst(g, s, p, depth, alpha, beta);
            (r.move.Some? <==> depth > 0 && !g.over(s) && |g.moves(s, p)| > 0) &&
            (r.move.Some? ==> r.move.value in g.moves(s, p))
  {
    if depth > 0 && !g.over(s) {
      ScanFirstMove(g, s, p, depth, g.moves(s, p), alpha, beta, Choice(Worst(p), None));
    }
  }

  /** The tie-break decides only the move: both searches return the same score. */
  lemma {:induction false} SameValue<S, M>(g: Game<S, M>, s: S, p: int, depth: nat, alpha: Score, beta: Score)
    ensures AlphaBetaFirst(g, s, p, depth, alpha, beta).value == AlphaBeta(g, s, p, depth, alpha, beta).value
    decreases depth, 1
  {
    if depth > 0 && !g.over(s) {
      ScanSameValue(g, s, p, depth, g.moves(s, p), alpha, beta, Choice(Worst(p), None), Choice(Worst(p), None));
    }
  }

  lemma {:induction false} ScanSameValue<S, M>(g: Game<S, M>, s: S, p: int, depth: nat, ms: seq<M>,
                                               alpha: Score, beta: Score, first: Choice<M>, later: Choice<M>)
    requires depth > 0 && first.value == later.value
    requires first.move.None? ==> first.value == Worst(p)
    ensures ScanFirst(g, s, p, depth, ms, alpha, beta, first).value == Scan(g, s, p, depth, ms, alpha, beta, later).value
    decreases depth, 0, |ms|
  {
    if |ms| > 0 {
      var c := g.play(s, ms[0], p);
      SameValue(g, c, -p, depth - 1, alpha, beta);
      var v := AlphaBeta(g, c, -p, depth - 1, alpha, beta).value;
      var first' := if first.move.None? || Improves(p, v, first.value) then Choice(v, Some(ms[0])) else first;
      var later' := if Takes(p, v, later.value) then Choice(v, Some(ms[0])) else later;
      var alpha' := if p == FIRST then Max(alpha, v) else alpha;
      var beta' := if p == FIRST then beta else Min(beta, v);
      if !Le(beta', alpha') {
        ScanSameValue(g, s, p, depth, ms[1..], alpha', beta', first', later');
      }
    }
  }

  /** At First's root the window is (best, +inf); taking or skipping a child
      keeps the root's value and the chosen child's value in step. */
  lemma RootStepFirst(best: Score, v: Score, vc: Score, t: Score)
    requires Lt(best, PosInf) && FailSoft(v, vc, best, PosInf)
    ensures Lt(best, v) || best == NegInf ==> vc == v && Max(best, Max(vc, t)) == Max(v, t)
    ensures !Lt(best, v) ==> Max(best, Max(vc, t)) == Max(best, t)
  {
    ScoreOrder(best, v, vc);
    ScoreOrder(vc, best, t);
  }

  /** The same at Second's root, whose window is (-inf, best). */
  lemma RootStepSecond(best: Score, v: Score, vc: Score, t: Score)
    requires Lt(NegInf, best) && FailSoft(v, vc, NegInf, best)
    ensures Lt(v, best) || best == PosInf ==> vc == v && Min(best, Min(vc, t)) == Min(v, t)
    ensures !Lt(v, best) ==> Min(best, Min(vc, t)) == Min(best, t)
  {
    ScoreOrder(best, v, vc);
    ScoreOrder(vc, best, t);
  }

  /** The root scan of the first-wins search: the window's near edge is the
      best score so far, and the move it holds leads to a child whose minimax
      value is that score. */
  lemma {:induction false} RootScan<S, M>(g: Game<S, M>, s: S, p: int, depth: nat, ms: seq<M>,
                                          alpha: Score, beta: Score, best: Choice<M>)
    requires depth > 0 && p in PLAYER && Lt(alpha, beta)
    requires p == FIRST ==> alpha == best.value && beta == PosInf
    requires p != FIRST ==> beta == best.value && alpha == NegInf
    requires best.move.None? ==> best.value == Worst(p)
    requires best.move.Some? ==> Minimax(g, g.play(s, best.move.value, p), -p, depth - 1) == best.value
    ensures var r := ScanFirst(g, s, p, depth, ms, alpha, beta, best);
            r.value == Better(p, best.value, BestOf(g, s, p, depth, ms)) &&
            (r.move.None? ==> r == best && |ms| == 0) &&
            (r.move.Some? ==> (r.move == best.move || r.move.value in ms) &&
                              Minimax(g, g.play(s, r.move.value, p), -p, depth - 1) == r.value)
    decreases |ms|
  {
    if |ms| > 0 {
      var c := g.play(s, ms[0], p);
      SameValue(g, c, -p, depth - 1, alpha, beta);
      AlphaBetaBounds(g, c, -p, depth - 1, alpha, beta);
      var v := AlphaBetaFirst(g, c, -p, depth - 1, alpha, beta).value;
      var vc := Minimax(g, c, -p, depth - 1);
      var t := BestOf(g, s, p, depth, ms[1..]);
      if p == FIRST {
        RootStepFirst(best.value, v, vc, t);
      } else {
        RootStepSecond(best.value, v, vc, t);
      }
      var best' := if best.move.None? || Improves(p, v, best.value) then Choice(v, Some(ms[0])) else best;
      var alpha' := if p == FIRST then Max(alpha, v) else alpha;
      var beta' := if p == FIRST then beta else Min(beta, v);
      if !Le(beta', alpha') {
        RootScan(g, s, p, depth, ms[1..], alpha', beta', best');
      }
    }
  }

  /** m is ms[i] for some i, and every move before it in ms leads to a
      child strictly worse for p than v. */
  ghost predicate Earliest<S, M>(g: Game<S, M>, s: S, p: int, depth: nat, ms: seq<M>, m: M, v: Score)
    requires depth > 0
  {
    exists i :: 0 <= i < |ms| && ms[i] == m &&
      forall j :: 0 <= j < i ==> Improves(p, v, Minimax(g, g.play(s, ms[j], p), -p, depth - 1))
  }

  /** The first move of a list is the earliest of it. */
  lemma EarliestHead<S, M>(g: Game<S, M>, s: S, p: int, depth: nat, ms: seq<M>, v: Score)
    requires depth > 0 && |ms| > 0
    ensures Earliest(g, s, p, depth, ms, ms[0], v)
  {
    assert ms[0] == ms[0];
  }

  /** The earliest move of the rest of a list is the earliest of the whole
      list when the first move's child is strictly worse for p. */
  lemma EarliestTail<S, M>(g: Game<S, M>, s: S, p: int, depth: nat, ms: seq<M>, m: M, v: Score)
    requires depth > 0 && |ms| > 0 && Earliest(g, s, p, depth, ms[1..], m, v)
    requires Improves(p, v, Minimax(g, g.play(s, ms[0], p), -p, depth - 1))
    ensures Earliest(g, s, p, depth, ms, m, v)
  {
    var i :| 0 <= i < |ms[1..]| && ms[1..][i] == m &&
             forall j :: 0 <= j < i ==> Improves(p, v, Minimax(g, g.play(s, ms[1..][j], p), -p, depth - 1));
    assert ms[i + 1] == m;
    forall j | 0 <= j < i + 1
      ensures Improves(p, v, Minimax(g, g.play(s, ms[j], p), -p, depth - 1))
    {
      if j > 0 {
        assert ms[j] == ms[1..][j - 1];
      }
    }
  }

  /** A child the root scan skips is no better for p than the best so far. */
  lemma RootSkip(p: int, best: Score, v: Score, vc: Score)
    requires p in PLAYER
    requires p == FIRST ==> Lt(best, PosInf) && FailSoft(v, vc, best, PosInf)
    requires p != FIRST ==> Lt(NegInf, best) && FailSoft(v, vc, NegInf, best)
    requires !Improves(p, v, best)
    ensures !Improves(p, vc, best)
  {
    ScoreOrder(best, v, vc);
    ScoreOrder(vc, v, best);
  }

  /** Which move the root scan keeps: the one it started with, or a move of
      ms better for p than the best so far (when there was one) and strictly
      better than every move before it in ms, so the earliest of the best. */
  lemma {:induction false} RootScanEarliest<S, M>(g: Game<S, M>, s: S, p: int, depth: nat, ms: seq<M>,
                                                  alpha: Score, beta: Score, best: Choice<M>)
    requires depth > 0 && p in PLAYER && Lt(alpha, beta)
    requires p == FIRST ==> alpha == best.value && beta == PosInf
    requires p != FIRST ==> beta == best.value && alpha == NegInf
    requires best.move.None? ==> best.value == Worst(p)
    ensures var r := ScanFirst(g, s, p, depth, ms, alpha, beta, best);
            r == best ||
            (r.move.Some? && Earliest(g, s, p, depth, ms, r.move.value, r.value) &&
             (best.move.Some? ==> Improves(p, r.value, best.value)))
    decreases |ms|
  {
    if |ms| > 0 {
      var c := g.play(s, ms[0], p);
      SameValue(g, c, -p, depth - 1, alpha, beta);
      AlphaBetaBounds(g, c, -p, depth - 1, alpha, beta);
      var v := AlphaBetaFirst(g, c, -p, depth - 1, alpha, beta).value;
      var vc := Minimax(g, c, -p, depth - 1);
      var t := BestOf(g, s, p, depth, ms[1..]);
      var take := best.move.None? || Improves(p, v, best.value);
      if p == FIRST {
        RootStepFirst(best.value, v, vc, t);
      } else {
        RootStepSecond(best.value, v, vc, t);
      }
      if !take {
        RootSkip(p, best.value, v, vc);
      }
      var best' := if take then Choice(v, Some(ms[0])) else best;
      var alpha' := if p == FIRST then Max(alpha, v) else alpha;
      var beta' := if p == FIRST then beta else Min(beta, v);
      ScanFirstStep(g, s, p, depth, ms, alpha, beta, best, v, alpha', beta', best');
      var r := ScanFirst(g, s, p, depth, ms, alpha, beta, best);
      if Le(beta', alpha') {
        assert take;
        EarliestHead(g, s, p, depth, ms, r.value);
      } else {
        RootScanEarliest(g, s, p, depth, ms[1..], alpha', beta', best');
        if r == best' {
          if take {
            EarliestHead(g, s, p, depth, ms, r.value);
          }
        } else {
          ScoreOrder(r.value, best'.value, best.value);
          ScoreOrder(r.value, vc, best.value);
          EarliestTail(g, s, p, depth, ms, r.move.value, r.value);
        }
      }
    }
  }

  /** Searched from the root with the full window, the first-wins search
      returns a move exactly when there is one to make, and that move leads
      to a child whose minimax value is the root's; every move listed before
      it leads to a child strictly worse for the player. */
  lemma ChosenMoveIsOptimal<S, M>(g: Game<S, M>, s: S, p: int, depth: nat)
    requires p in PLAYER
    ensures var r := AlphaBetaFirst(g, s, p, depth, NegInf, PosInf);
            r.value == Minimax(g, s, p, depth) &&
            (r.move.Some? <==> depth > 0 && !g.over(s) && |g.moves(s, p)| > 0) &&
            (r.move.Some? ==> r.move.value in g.moves(s, p) &&
                              Minimax(g, g.play(s, r.move.value, p), -p, depth - 1) == r.value)
    ensures var r := AlphaBetaFirst(g, s, p, depth, NegInf, PosInf);
            r.move.Some? ==> depth > 0 && Earliest(g, s, p, depth, g.moves(s, p), r.move.value, r.value)
  {
    if depth > 0 && !g.over(s) {
      RootScan(g, s, p, depth, g.moves(s, p), NegInf, PosInf, Choice(Worst(p), None));
      RootScanEarliest(g, s, p, depth, g.moves(s, p), NegInf, PosInf, Choice(Worst(p), None));
    }
  }

  /** A two-ply game: from 0, First picks 1 or 2; from 1, Second picks leaf 3
      or 4, both worth 5; from 2, Second picks leaf 5 (worth 5) or 6 (worth 0). */
  function TieGame(): Game<int, int>
  {
    Game(
      s => false,
      (s, p) => if s == 0 then [1, 2] else if s == 1 then [3, 4] else if s == 2 then [5, 6] else [],
      (s, m, p) => m,
      (s, p) => if s == 6 then Fin(0.0) else Fin(5.0))
  }

  /** As written, the search reports the right value but the later move 2:
      the second child fails low at exactly the first child's value, and the
      tie replaces the move, though Second answers move 2 with the leaf
      worth 0. */
  lemma TieBreakPicksWorseMove()
    ensures AlphaBeta(TieGame(), 0, FIRST, 2, NegInf, PosInf) == Choice(Fin(5.0), Some(2))
    ensures Minimax(TieGame(), 0, FIRST, 2) == Fin(5.0)
    ensures Minimax(TieGame(), 2, SECOND, 1) == Fin(0.0)
  {
    var g := TieGame();
    TieGameLeaves();
    assert [1, 2][1..] == [2] && [3, 4][1..] == [4] && [5, 6][1..] == [6];
    var none: Option<int> := None;
    // Second, below move 1, with the full window: both leaves tie at 5.
    assert Scan(g, 1, SECOND, 1, [4], NegInf, Fin(5.0), Choice(Fin(5.0), Some(3))) == Choice(Fin(5.0), Some(4));
    assert Scan(g, 1, SECOND, 1, [3, 4], NegInf, PosInf, Choice(PosInf, none)) == Choice(Fin(5.0), Some(4));
    // Second, below move 2, with window (5, +inf): leaf 5 cuts off at once.
    assert Scan(g, 2, SECOND, 1, [5, 6], Fin(5.0), PosInf, Choice(PosInf, none)) == Choice(Fin(5.0), Some(5));
    assert Scan(g, 0, FIRST, 2, [2], Fin(5.0), PosInf, Choice(Fin(5.0), Some(1))) == Choice(Fin(5.0), Some(2));
    assert Scan(g, 0, FIRST, 2, [1, 2], NegInf, PosInf, Choice(NegInf, none)) == Choice(Fin(5.0), Some(2));
    assert BestOf(g, 2, SECOND, 1, [6]) == Fin(0.0);
    assert BestOf(g, 2, SECOND, 1, [5, 6]) == Fin(0.0);
    assert BestOf(g, 1, SECOND, 1, [4]) == Fin(5.0);
    assert BestOf(g, 1, SECOND, 1, [3, 4]) == Fin(5.0);
    assert BestOf(g, 0, FIRST, 2, [2]) == Fin(0.0);
  }

  /** The leaves of the two-ply game, as seen by First. */
  lemma TieGameLeaves()
    ensures forall m :: 3 <= m <= 6 ==> Minimax(TieGame(), m, FIRST, 0) == if m == 6 then Fin(0.0) else Fin(5.0)
    ensures forall m :: 3 <= m <= 6 ==> AlphaBeta(TieGame(), m, FIRST, 0, NegInf, PosInf) == AlphaBetaFirst(TieGame(), m, FIRST, 0, NegInf, PosInf)
  {
  }

  /** The first-wins search keeps move 1 on the same game. */
  lemma FirstWinsKeepsBetterMove()
    ensures AlphaBetaFirst(TieGame(), 0, FIRST, 2, NegInf, PosInf) == Choice(Fin(5.0), Some(1))
    ensures Minimax(TieGame(), 1, SECOND, 1) == Fin(5.0)
  {
    var g := TieGame();
    TieGameLeaves();
    assert [1, 2][1..] == [2] && [3, 4][1..] == [4] && [5, 6][1..] == [6];
    var none: Option<int> := None;
    assert ScanFirst(g, 1, SECOND, 1, [4], NegInf, Fin(5.0), Choice(Fin(5.0), Some(3))) == Choice(Fin(5.0), Some(3));
    assert ScanFirst(g, 1, SECOND, 1, [3, 4], NegInf, PosInf, Choice(PosInf, none)) == Choice(Fin(5.0), Some(3));
    assert ScanFirst(g, 2, SECOND, 1, [5, 6], Fin(5.0), PosInf, Choice(PosInf, none)) == Choice(Fin(5.0), Some(5));
    assert ScanFirst(g, 0, FIRST, 2, [2], Fin(5.0), PosInf, Choice(Fin(5.0), Some(1))) == Choice(Fin(5.0), Some(1));
    assert ScanFirst(g, 0, FIRST, 2, [1, 2], NegInf, PosInf, Choice(NegInf, none)) == Choice(Fin(5.0), Some(1));
    assert BestOf(g, 1, SECOND, 1, [4]) == Fin(5.0);
    assert BestOf(g, 1, SECOND, 1, [3, 4]) == Fin(5.0);
  }
}
