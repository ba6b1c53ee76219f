/**
 The computer player: `algo_prune_alphabeta`, depth-limited minimax with
 alpha-beta pruning. The search is written against the rules it is given
 (when the game is over, how a position scores, which positions each side
 can move to); `CheckersRules` supplies the engine's own: `is_winner`, the
 doubled `evaluation_function` and `all_moves`, with grey maximising and
 red minimising. Scores are extended with the two infinities the source
 starts its loops from.
 */
module Search {
  import opened Wrappers
  import opened Boards
  import opened Successors

  /** What the search needs to know of a game: whether a position is over,
      its score, and the positions the maximiser (true) or the minimiser
      (false) can move to, in the order they are tried. */
  datatype Rules<!T> = Rules(over: T -> bool, score: T -> int, moves: (T, bool) -> seq<T>)

  // ---------------------------------------------------------------------------
  // Scores
  // ---------------------------------------------------------------------------

  /** A doubled score, or one of the infinities the search starts from. */
  datatype ExtInt = NegInf | Fin(n: int) | PosInf

  predicate Le(a: ExtInt, b: ExtInt)
  {
    a.NegInf? || b.PosInf? || (a.Fin? && b.Fin? && a.n <= b.n)
  }

  predicate Lt(a: ExtInt, b: ExtInt)
  {
    !Le(b, a)
  }

  /** Python's `max` of two scores. */
  function Larger(a: ExtInt, b: ExtInt): (r: ExtInt)
    ensures Le(a, r) && Le(b, r) && (r == a || r == b)
  {
    if Le(b, a) then a else b
  }

  /** Python's `min` of two scores. */
  function Smaller(a: ExtInt, b: ExtInt): (r: ExtInt)
    ensures Le(r, a) && Le(r, b) && (r == a || r == b)
  {
    if Le(a, b) then a else b
  }

  // ---------------------------------------------------------------------------
  // The search as written
  // ---------------------------------------------------------------------------

  /** A position the search scores without looking further. */
  predicate Leaf<T(==)>(rules: Rules<T>, b: T, depth: nat)
  {
    depth == 0 || rules.over(b)
  }

  /** `algo_prune_alphabeta`: the score of the position and the successor
      chosen. A leaf scores itself and is returned as its own choice;
      otherwise the successor returned is the first one whose score strictly
      improved the running best, or None when none did. */
  function AlphaBeta<T(==)>(rules: Rules<T>, b: T, alpha: ExtInt, beta: ExtInt, depth: nat, maxPlayer: bool): (r: (ExtInt, Option<T>))
    ensures Leaf(rules, b, depth) ==> r.1 == Some(b)
    ensures !Leaf(rules, b, depth) && r.1.Some? ==> r.1.value in rules.moves(b, maxPlayer)
    decreases depth, 1
  {
    if Leaf(rules, b, depth) then (Fin(rules.score(b)), Some(b))
    else if maxPlayer then Sweep(rules, rules.moves(b, true), alpha, beta, depth, true, NegInf, None)
    else Sweep(rules, rules.moves(b, false), alpha, beta, depth, false, PosInf, None)
  }

  /** The loop over the successors: `bv` and `bm` are the best score and
      move so far, `alpha` and `beta` the window as the loop has narrowed it.
      The loop stops early once the window closes. */
  function Sweep<T(==)>(rules: Rules<T>, ms: seq<T>, alpha: ExtInt, beta: ExtInt, depth: nat, maxPlayer: bool,
                 bv: ExtInt, bm: Option<T>): (r: (ExtInt, Option<T>))
    requires depth > 0
    ensures r.1 == bm || (r.1.Some? && r.1.value in ms)
    decreases depth, 0, |ms|
  {
    if ms == [] then (bv, bm)
    else
      var v := AlphaBeta(rules, ms[0], alpha, beta, depth - 1, !maxPlayer).0;
      if maxPlayer then
        var bv', bm' := if Lt(bv, v) then v else bv, if Lt(bv, v) then Some(ms[0]) else bm;
        var alpha' := Larger(alpha, bv');
        if Le(beta, alpha') then (bv', bm')
        else Sweep(rules, ms[1..], alpha', beta, depth, true, bv', bm')
      else
        var bv', bm' := if Lt(v, bv) then v else bv, if Lt(v, bv) then Some(ms[0]) else bm;
        var beta' := Smaller(beta, bv');
        if Le(beta', alpha) then (bv', bm')
        else Sweep(rules, ms[1..], alpha, beta', depth, false, bv', bm')
  }

  // ---------------------------------------------------------------------------
  // Plain minimax, the reference the search is measured against
  // ---------------------------------------------------------------------------

  /** The minimax score of a position searched to `depth` plies. */
  function Minimax<T(==)>(rules: Rules<T>, b: T, depth: nat, maxPlayer: bool): ExtInt
    decreases depth, 1
  {
    if Leaf(rules, b, depth) then Fin(rules.score(b))
    else if maxPlayer then MaxOver(rules, rules.moves(b, true), depth)
    else MinOver(rules, rules.moves(b, false), depth)
  }

  /** The largest minimax score of the successors, each searched by the minimiser. */
  function MaxOver<T(==)>(rules: Rules<T>, ms: seq<T>, depth: nat): ExtInt
    requires depth > 0
    decreases depth, 0, |ms|
  {
    if ms == [] then NegInf else Larger(Minimax(rules, ms[0], depth - 1, false), MaxOver(rules, ms[1..], depth))
  }

  /** The smallest minimax score of the successors, each searched by the maximiser. */
  function MinOver<T(==)>(rules: Rules<T>, ms: seq<T>, depth: nat): ExtInt
    requires depth > 0
    decreases depth, 0, |ms|
  {
    if ms == [] then PosInf else Smaller(Minimax(rules, ms[0], depth - 1, true), MinOver(rules, ms[1..], depth))
  }

  /** The first successor whose minimax score is m. */
  function FirstBest<T(==)>(rules: Rules<T>, ms: seq<T>, depth: nat, maxPlayer: bool, m: ExtInt): (r: Option<T>)
    requires depth > 0
    ensures r.Some? ==> r.value in ms && Minimax(rules, r.value, depth - 1, !maxPlayer) == m
    decreases |ms|
  {
    if ms == [] then None
    else if Minimax(rules, ms[0], depth - 1, !maxPlayer) == m then Some(ms[0])
    else FirstBest(rules, ms[1..], depth, maxPlayer, m)
  }

  /** MaxOver is the largest child score: it bounds every child and, unless
      it is -inf, some child attains it. */
  lemma {:induction false} MaxOverSpec<T>(rules: Rules<T>, ms: seq<T>, depth: nat)
    requires depth > 0
    ensures forall i :: 0 <= i < |ms| ==> Le(Minimax(rules, ms[i], depth - 1, false), MaxOver(rules, ms, depth))
    ensures MaxOver(rules, ms, depth) == NegInf || exists i :: 0 <= i < |ms| && Minimax(rules, ms[i], depth - 1, false) == MaxOver(rules, ms, depth)
    decreases |ms|
  {
    if ms != [] {
      MaxOverSpec(rules, ms[1..], depth);
      forall i | 1 <= i < |ms|
        ensures Minimax(rules, ms[i], depth - 1, false) == Minimax(rules, ms[1..][i - 1], depth - 1, false)
      {
      }
    }
  }

  /** MinOver is the smallest child score: it bounds every child from below
      and, unless it is +inf, some child attains it. */
  lemma {:induction false} MinOverSpec<T>(rules: Rules<T>, ms: seq<T>, depth: nat)
    requires depth > 0
    ensures forall i :: 0 <= i < |ms| ==> Le(MinOver(rules, ms, depth), Minimax(rules, ms[i], depth - 1, true))
    ensures MinOver(rules, ms, depth) == PosInf || exists i :: 0 <= i < |ms| && Minimax(rules, ms[i], depth - 1, true) == MinOver(rules, ms, depth)
    decreases |ms|
  {
    if ms != [] {
      MinOverSpec(rules, ms[1..], depth);
      forall i | 1 <= i < |ms|
        ensures Minimax(rules, ms[i], depth - 1, true) == Minimax(rules, ms[1..][i - 1], depth - 1, true)
      {
      }
    }
  }

  /** FirstBest picks no child exactly when no child has score m. */
  lemma {:induction false} FirstBestNone<T>(rules: Rules<T>, ms: seq<T>, depth: nat, maxPlayer: bool, m: ExtInt)
    requires depth > 0
    ensures FirstBest(rules, ms, depth, maxPlayer, m) == None <==>
      forall i :: 0 <= i < |ms| ==> Minimax(rules, ms[i], depth - 1, !maxPlayer) != m
    decreases |ms|
  {
    if ms != [] {
      FirstBestNone(rules, ms[1..], depth, maxPlayer, m);
      assert forall i :: 1 <= i < |ms| ==> ms[i] == ms[1..][i - 1];
    }
  }

  /** FirstBest picks the earliest child with score m. */
  lemma {:induction false} FirstBestFirst<T>(rules: Rules<T>, ms: seq<T>, depth: nat, maxPlayer: bool, m: ExtInt, i: int)
    requires depth > 0
    requires 0 <= i < |ms| && Minimax(rules, ms[i], depth - 1, !maxPlayer) == m
    requires forall j :: 0 <= j < i ==> Minimax(rules, ms[j], depth - 1, !maxPlayer) != m
    ensures FirstBest(rules, ms, depth, maxPlayer, m) == Some(ms[i])
    decreases |ms|
  {
    if i > 0 {
      var rest := ms[1..];
      forall j | 0 <= j < i - 1
        ensures Minimax(rules, rest[j], depth - 1, !maxPlayer) != m
      {
        assert rest[j] == ms[j + 1];
      }
      FirstBestFirst(rules, rest, depth, maxPlayer, m, i - 1);
      assert rest[i - 1] == ms[i];
    }
  }

  // ---------------------------------------------------------------------------
  // Correctness of the pruning
  // ---------------------------------------------------------------------------

  /** The fail-soft guarantee of alpha-beta for a window (alpha, beta): a
      score at or below alpha bounds the true value from above, one at or
      above beta bounds it from below, and one strictly inside is exact. */
  predicate Bounded(v: ExtInt, m: ExtInt, alpha: ExtInt, beta: ExtInt)
  {
    && (Le(v, alpha) ==> Le(m, v))
    && (Lt(alpha, v) && Lt(v, beta) ==> m == v)
    && (Le(beta, v) ==> Le(v, m))
  }

  /** Pruning never misleads: the score returned for any open window is
      bounded against the minimax value as fail-soft alpha-beta promises. */
  lemma {:induction false} AlphaBetaBounded<T>(rules: Rules<T>, b: T, alpha: ExtInt, beta: ExtInt, depth: nat, maxPlayer: bool)
    requires Lt(alpha, beta)
    ensures Bounded(AlphaBeta(rules, b, alpha, beta, depth, maxPlayer).0, Minimax(rules, b, depth, maxPlayer), alpha, beta)
    decreases depth, 1
  {
    if Leaf(rules, b, depth) {
    } else if maxPlayer {
      SweepMaxBounded(rules, rules.moves(b, true), alpha, beta, depth, NegInf, None);
    } else {
      SweepMinBounded(rules, rules.moves(b, false), alpha, beta, depth, PosInf, None);
    }
  }

  /** The maximiser's loop: the running best never exceeds the running
      alpha, and the result is bounded against the best of the remaining
      successors. */
  lemma {:induction false} SweepMaxBounded<T>(rules: Rules<T>, ms: seq<T>, alpha: ExtInt, beta: ExtInt, depth: nat,
                                           bv: ExtInt, bm: Option<T>)
    requires depth > 0
    requires Lt(alpha, beta) && Le(bv, alpha)
    ensures var r := Sweep(rules, ms, alpha, beta, depth, true, bv, bm).0;
      Le(bv, r) && Bounded(r, MaxOver(rules, ms, depth), alpha, beta)
    decreases depth, 0, |ms|
  {
    if ms != [] {
      AlphaBetaBounded(rules, ms[0], alpha, beta, depth - 1, false);
      var v := AlphaBeta(rules, ms[0], alpha, beta, depth - 1, false).0;
      var bv' := if Lt(bv, v) then v else bv;
      var bm' := if Lt(bv, v) then Some(ms[0]) else bm;
      var alpha' := Larger(alpha, bv');
      var r := Sweep(rules, ms, alpha, beta, depth, true, bv, bm).0;
      if !Le(beta, alpha') {
        SweepMaxBounded(rules, ms[1..], alpha', beta, depth, bv', bm');
        assert r == Sweep(rules, ms[1..], alpha', beta, depth, true, bv', bm').0;
      } else {
        assert r == bv';
      }
      MaxStep(alpha, beta, bv, v, Minimax(rules, ms[0], depth - 1, false), MaxOver(rules, ms[1..], depth), r);
    }
  }

  /** One round of the maximiser's loop, on scores alone: the child's score v
      is bounded against its true value t, and the rest of the loop returns r,
      bounded against the best true value mr of the remaining children. */
  lemma MaxStep(alpha: ExtInt, beta: ExtInt, bv: ExtInt, v: ExtInt, t: ExtInt, mr: ExtInt, r: ExtInt)
    requires Lt(alpha, beta) && Le(bv, alpha) && Bounded(v, t, alpha, beta)
    requires var bv' := if Lt(bv, v) then v else bv; var alpha' := Larger(alpha, bv');
      if Le(beta, alpha') then r == bv'
      else Le(bv', r) && Bounded(r, mr, alpha', beta)
    ensures Le(bv, r) && Bounded(r, Larger(t, mr), alpha, beta)
  {
  }

  /** The minimiser's loop, the mirror image of `SweepMaxBounded`. */
  lemma {:induction false} SweepMinBounded<T>(rules: Rules<T>, ms: seq<T>, alpha: ExtInt, beta: ExtInt, depth: nat,
                                           bv: ExtInt, bm: Option<T>)
    requires depth > 0
    requires Lt(alpha, beta) && Le(beta, bv)
    ensures var r := Sweep(rules, ms, alpha, beta, depth, false, bv, bm).0;
      Le(r, bv) && Bounded(r, MinOver(rules, ms, depth), alpha, beta)
    decreases depth, 0, |ms|
  {
    if ms != [] {
      AlphaBetaBounded(rules, ms[0], alpha, beta, depth - 1, true);
      var v := AlphaBeta(rules, ms[0], alpha, beta, depth - 1, true).0;
      var bv' := if Lt(v, bv) then v else bv;
      var bm' := if Lt(v, bv) then Some(ms[0]) else bm;
      var beta' := Smaller(beta, bv');
      var r := Sweep(rules, ms, alpha, beta, depth, false, bv, bm).0;
      if !Le(beta', alpha) {
        SweepMinBounded(rules, ms[1..], alpha, beta', depth, bv', bm');
        assert r == Sweep(rules, ms[1..], alpha, beta', depth, false, bv', bm').0;
      } else {
        assert r == bv';
      }
      MinStep(alpha, beta, bv, v, Minimax(rules, ms[0], depth - 1, true), MinOver(rules, ms[1..], depth), r);
    }
  }

  /** One round of the minimiser's loop, on scores alone. */
  lemma MinStep(alpha: ExtInt, beta: ExtInt, bv: ExtInt, v: ExtInt, t: ExtInt, mr: ExtInt, r: ExtInt)
    requires Lt(alpha, beta) && Le(beta, bv) && Bounded(v, t, alpha, beta)
    requires var bv' := if Lt(v, bv) then v else bv; var beta' := Smaller(beta, bv');
      if Le(beta', alpha) then r == bv'
      else Le(r, bv') && Bounded(r, mr, alpha, beta')
    ensures Le(r, bv) && Bounded(r, Smaller(t, mr), alpha, beta)
  {
  }

  /** With the full window the search returns exactly the minimax value. */
  lemma AlphaBetaExact<T>(rules: Rules<T>, b: T, depth: nat, maxPlayer: bool)
    ensures AlphaBeta(rules, b, NegInf, PosInf, depth, maxPlayer).0 == Minimax(rules, b, depth, maxPlayer)
  {
    AlphaBetaBounded(rules, b, NegInf, PosInf, depth, maxPlayer);
  }

  /** The maximiser's loop at the root, where the window is (best so far, +inf):
      it returns the best score and, when some successor beats the starting
      score, the first successor that reaches it. */
  lemma {:induction false} SweepRootMax<T>(rules: Rules<T>, ms: seq<T>, depth: nat, bv: ExtInt, bm: Option<T>)
    requires depth > 0
    requires bv != PosInf
    ensures var m := MaxOver(rules, ms, depth);
      Sweep(rules, ms, bv, PosInf, depth, true, bv, bm) == (Larger(bv, m), if Lt(bv, m) then FirstBest(rules, ms, depth, true, m) else bm)
    decreases |ms|
  {
    if ms != [] {
      AlphaBetaBounded(rules, ms[0], bv, PosInf, depth - 1, false);
      var v := AlphaBeta(rules, ms[0], bv, PosInf, depth - 1, false).0;
      var t := Minimax(rules, ms[0], depth - 1, false);
      var m, mr := MaxOver(rules, ms, depth), MaxOver(rules, ms[1..], depth);
      assert m == Larger(t, mr);
      var r := Sweep(rules, ms, bv, PosInf, depth, true, bv, bm);
      if Lt(bv, v) {
        assert Larger(bv, v) == v;
        if v == PosInf {
          assert r == (v, Some(ms[0])) && t == PosInf;
        } else {
          assert t == v;
          assert r == Sweep(rules, ms[1..], v, PosInf, depth, true, v, Some(ms[0]));
          SweepRootMax(rules, ms[1..], depth, v, Some(ms[0]));
          if Lt(v, mr) {
            assert m == mr && t != m;
          } else {
            assert m == t;
          }
        }
      } else {
        assert Le(t, bv) && Larger(bv, bv) == bv;
        assert r == Sweep(rules, ms[1..], bv, PosInf, depth, true, bv, bm);
        SweepRootMax(rules, ms[1..], depth, bv, bm);
        if Lt(bv, mr) {
          assert m == mr && t != m;
        } else {
          assert !Lt(bv, m);
        }
      }
    }
  }

  /** The minimiser's loop at the root, where the window is (-inf, best so far). */
  lemma {:induction false} SweepRootMin<T>(rules: Rules<T>, ms: seq<T>, depth: nat, bv: ExtInt, bm: Option<T>)
    requires depth > 0
    requires bv != NegInf
    ensures var m := MinOver(rules, ms, depth);
      Sweep(rules, ms, NegInf, bv, depth, false, bv, bm) == (Smaller(bv, m), if Lt(m, bv) then FirstBest(rules, ms, depth, false, m) else bm)
    decreases |ms|
  {
    if ms != [] {
      AlphaBetaBounded(rules, ms[0], NegInf, bv, depth - 1, true);
      var v := AlphaBeta(rules, ms[0], NegInf, bv, depth - 1, true).0;
      var t := Minimax(rules, ms[0], depth - 1, true);
      var m, mr := MinOver(rules, ms, depth), MinOver(rules, ms[1..], depth);
      assert m == Smaller(t, mr);
      var r := Sweep(rules, ms, NegInf, bv, depth, false, bv, bm);
      if Lt(v, bv) {
        assert Smaller(bv, v) == v;
        if v == NegInf {
          assert r == (v, Some(ms[0])) && t == NegInf;
        } else {
          assert t == v;
          assert r == Sweep(rules, ms[1..], NegInf, v, depth, false, v, Some(ms[0]));
          SweepRootMin(rules, ms[1..], depth, v, Some(ms[0]));
          if Lt(mr, v) {
            assert m == mr && t != m;
          } else {
            assert m == t;
          }
        }
      } else {
        assert Le(bv, t) && Smaller(bv, bv) == bv;
        assert r == Sweep(rules, ms[1..], NegInf, bv, depth, false, bv, bm);
        SweepRootMin(rules, ms[1..], depth, bv, bm);
        if Lt(mr, bv) {
          assert m == mr && t != m;
        } else {
          assert !Lt(m, bv);
        }
      }
    }
  }

  /** The engine's call with the full window: the score is the minimax value,
      and the successor chosen is the first one in `all_moves` order that
      attains it; none is chosen when the value is the starting infinity
      (no successors, or all of them lost outright). */
  lemma AlphaBetaChoice<T>(rules: Rules<T>, b: T, depth: nat, maxPlayer: bool)
    requires !Leaf(rules, b, depth)
    ensures var r := AlphaBeta(rules, b, NegInf, PosInf, depth, maxPlayer);
      var ms := rules.moves(b, maxPlayer);
      && r.0 == Minimax(rules, b, depth, maxPlayer)
      && r.1 == if r.0 == (if maxPlayer then NegInf else PosInf) then None else FirstBest(rules, ms, depth, maxPlayer, r.0)
  {
    if maxPlayer {
      SweepRootMax(rules, rules.moves(b, true), depth, NegInf, None);
    } else {
      SweepRootMin(rules, rules.moves(b, false), depth, PosInf, None);
    }
  }

  // ---------------------------------------------------------------------------
  // The engine's rules
  // ---------------------------------------------------------------------------

  /** Checkers as the engine searches it: a position is over once
      `is_winner` names a side, scores by `evaluation_function` (doubled),
      and grey, the maximiser, moves by `all_moves(board, GREY)`, red by
      `all_moves(board, RED)`. */
  function CheckersRules(): Rules<Position>
  {
    Rules((b: Position) => Winner(b) != None,
          (b: Position) => Evaluate(b),
          (b: Position, maxPlayer: bool) => AllMoves(b, if maxPlayer then Grey else Red))
  }

  /** The engine's call `algo_prune_alphabeta(board, -inf, +inf, depth, GREY, game)`
      for either side: the score is the minimax value, and the board chosen is
      one of `all_moves` for the side to move, the first one that attains the
      value; no board is chosen when the value is the side's starting infinity. */
  lemma EngineChoice(b: Position, depth: nat, maxPlayer: bool)
    requires depth > 0 && Winner(b) == None
    ensures var rules := CheckersRules(); var r := AlphaBeta(rules, b, NegInf, PosInf, depth, maxPlayer);
      && r.0 == Minimax(rules, b, depth, maxPlayer)
      && (r.1.Some? ==> r.1.value in AllMoves(b, if maxPlayer then Grey else Red))
      && r.1 == if r.0 == (if maxPlayer then NegInf else PosInf) then None
                else FirstBest(rules, AllMoves(b, if maxPlayer then Grey else Red), depth, maxPlayer, r.0)
  {
    AlphaBetaChoice(CheckersRules(), b, depth, maxPlayer);
  }

  /** A position that is over, or searched to depth 0, is scored by the
      evaluation and returned as its own choice. */
  lemma EngineLeaf(b: Position, alpha: ExtInt, beta: ExtInt, depth: nat, maxPlayer: bool)
    requires depth == 0 || Winner(b) != None
    ensures AlphaBeta(CheckersRules(), b, alpha, beta, depth, maxPlayer) == (Fin(Evaluate(b)), Some(b))
  {
  }
}
