/** alpha_beta_search: minimax with alpha-beta pruning. Each node search is given a
    window (alpha, beta) and may stop looking at actions once its value is outside
    the window; the value it returns is then only a bound on the minimax value, on
    the side of the window it fell out of (a "fail-soft" search). */
module AlphaBeta {
  import opened Game
  import opened Choice
  import Minimax

  /** What a search with window (alpha, beta) promises about its answer `v` for a
      node whose minimax value is `m`: exact inside the window, and outside it a
      value between `m` and the window edge that `m` lies beyond. */
  predicate FailSoft(v: int, m: int, alpha: int, beta: int)
  {
    && (m <= alpha ==> m <= v <= alpha)
    && (alpha < m < beta ==> v == m)
    && (beta <= m ==> beta <= v <= m)
  }

  /** One turn of max_value's loop, on numbers: `best` is the minimax value of the
      actions seen so far, `mi` that of the next one, and `w` what the window search
      of the next action returned. */
  lemma MaxStep(alpha: int, beta: int, value: int, w: int, best: int, mi: int)
    requires alpha < beta && value < beta
    requires best <= value <= Max(alpha, best)
    requires FailSoft(w, mi, Max(alpha, value), beta)
    ensures Max(value, w) <= Max(alpha, Max(best, mi))
    ensures Max(value, w) < beta ==> Max(best, mi) <= Max(value, w)
  {
  }

  lemma MinStep(alpha: int, beta: int, value: int, w: int, best: int, mi: int)
    requires alpha < beta && alpha < value
    requires Min(beta, best) <= value <= best
    requires FailSoft(w, mi, alpha, Min(beta, value))
    ensures Min(beta, Min(best, mi)) <= Min(value, w)
    ensures alpha < Min(value, w) ==> Min(value, w) <= Min(best, mi)
  {
  }

  /** The end of max_value's loop, or a return from it once `value` reached `beta`:
      either way `value` is a fail-soft answer for the node's minimax value `m`. */
  lemma MaxDone(alpha: int, beta: int, value: int, best: int, m: int)
    requires alpha < beta
    requires value <= Max(alpha, best)
    requires value < beta ==> best == m && best <= value
    requires beta <= value ==> best <= m
    ensures FailSoft(value, m, alpha, beta)
  {
  }

  lemma MinDone(alpha: int, beta: int, value: int, best: int, m: int)
    requires alpha < beta
    requires Min(beta, best) <= value
    requires alpha < value ==> best == m && value <= best
    requires value <= alpha ==> m <= best
    ensures FailSoft(value, m, alpha, beta)
  {
  }

  /** One turn of max_value's loop at a non-terminal node: after the `i`-th child's
      answer `w`, the new `value` is at most the window's alpha or the fold so far,
      and, while it stays below `beta`, at least the fold so far. */
  lemma MaxTurn(cfg: Config, p: Player, s: State, i: nat, alpha: int, beta: int, value: int, w: int)
    requires WellFormed(cfg, s) && i < |s.moves| && alpha < beta
    requires Minimax.MaxOver(cfg, p, s, i) <= value <= Max(alpha, Minimax.MaxOver(cfg, p, s, i))
    requires value < beta
    requires FailSoft(w, Minimax.MinValue(cfg, p, Successor(cfg, s, s.moves[i])), Max(alpha, value), beta)
    ensures Max(value, w) <= Max(alpha, Minimax.MaxOver(cfg, p, s, i + 1))
    ensures Max(value, w) < beta ==> Minimax.MaxOver(cfg, p, s, i + 1) <= Max(value, w)
  {
    Minimax.ChildMinIs(cfg, p, s, i);
    Minimax.MaxOverStep(cfg, p, s, i + 1);
    MaxStep(alpha, beta, value, w, Minimax.MaxOver(cfg, p, s, i), Minimax.ChildMin(cfg, p, s, i));
  }

  /** The cutoff of max_value: once `value` reaches `beta` after `n` actions, it is
      a lower bound on the node's value, so returning it is a fail-soft answer. */
  lemma MaxCut(cfg: Config, p: Player, s: State, n: nat, alpha: int, beta: int, value: int)
    requires WellFormed(cfg, s) && !TerminalTest(s) && n <= |s.moves| && alpha < beta
    requires beta <= value <= Max(alpha, Minimax.MaxOver(cfg, p, s, n))
    ensures FailSoft(value, Minimax.MaxValue(cfg, p, s), alpha, beta)
  {
    Minimax.MaxOverGrows(cfg, p, s, n, |s.moves|);
  }

  lemma MinTurn(cfg: Config, p: Player, s: State, i: nat, alpha: int, beta: int, value: int, w: int)
    requires WellFormed(cfg, s) && i < |s.moves| && alpha < beta
    requires Min(beta, Minimax.MinOver(cfg, p, s, i)) <= value <= Minimax.MinOver(cfg, p, s, i)
    requires alpha < value
    requires FailSoft(w, Minimax.MaxValue(cfg, p, Successor(cfg, s, s.moves[i])), alpha, Min(beta, value))
    ensures Min(beta, Minimax.MinOver(cfg, p, s, i + 1)) <= Min(value, w)
    ensures alpha < Min(value, w) ==> Min(value, w) <= Minimax.MinOver(cfg, p, s, i + 1)
  {
    Minimax.ChildMaxIs(cfg, p, s, i);
    Minimax.MinOverStep(cfg, p, s, i + 1);
    MinStep(alpha, beta, value, w, Minimax.MinOver(cfg, p, s, i), Minimax.ChildMax(cfg, p, s, i));
  }

  lemma MinCut(cfg: Config, p: Player, s: State, n: nat, alpha: int, beta: int, value: int)
    requires WellFormed(cfg, s) && !TerminalTest(s) && n <= |s.moves| && alpha < beta
    requires Min(beta, Minimax.MinOver(cfg, p, s, n)) <= value <= alpha
    ensures FailSoft(value, Minimax.MinValue(cfg, p, s), alpha, beta)
  {
    Minimax.MinOverShrinks(cfg, p, s, n, |s.moves|);
  }

  /** One turn of the root loop, on the keys: with the window opened at the best
      score so far, a child's answer beats that score exactly when its key is a new
      strict maximum, so the root keeps the first action of greatest key. */
  lemma RootStep(keys: seq<int>, i: nat, bestScore: int, value: int)
    requires i < |keys| && -1 <= keys[i] <= 1
    requires i == 0 ==> bestScore == NEG_INF
    requires i > 0 ==> bestScore == keys[BestIndex(keys, i)]
    requires FailSoft(value, keys[i], bestScore, POS_INF)
    ensures value > bestScore ==> value == keys[i] && BestIndex(keys, i + 1) == i
    ensures value <= bestScore ==> i > 0 && BestIndex(keys, i + 1) == BestIndex(keys, i)
  {
    BestIndexStep(keys, i + 1);
  }

  /** max_value of alpha_beta_search. */
  method MaxValue(cfg: Config, p: Player, s: State, alpha: int, beta: int) returns (v: int)
    requires WellFormed(cfg, s)
    requires NEG_INF <= alpha < beta <= POS_INF
    ensures FailSoft(v, Minimax.MaxValue(cfg, p, s), alpha, beta)
    decreases |s.moves|
  {
    if TerminalTest(s) {
      return Utility(s, p);
    }
    var actions := Actions(s);
    var value, a := NEG_INF, alpha;
    for i := 0 to |actions|
      invariant Minimax.MaxOver(cfg, p, s, i) <= value <= Max(alpha, Minimax.MaxOver(cfg, p, s, i))
      invariant value < beta && a == Max(alpha, value)
    {
      var t := Result(cfg, s, actions[i]);
      var w := MinValue(cfg, p, t, a, beta);
      MaxTurn(cfg, p, s, i, alpha, beta, value, w);
      value := Max(value, w);
      if value >= beta {
        MaxCut(cfg, p, s, i + 1, alpha, beta, value);
        return value;
      }
      a := Max(a, value);
    }
    MaxDone(alpha, beta, value, Minimax.MaxOver(cfg, p, s, |s.moves|), Minimax.MaxValue(cfg, p, s));
    return value;
  }

  /** min_value of alpha_beta_search. */
  method MinValue(cfg: Config, p: Player, s: State, alpha: int, beta: int) returns (v: int)
    requires WellFormed(cfg, s)
    requires NEG_INF <= alpha < beta <= POS_INF
    ensures FailSoft(v, Minimax.MinValue(cfg, p, s), alpha, beta)
    decreases |s.moves|
  {
    if TerminalTest(s) {
      return Utility(s, p);
    }
    var actions := Actions(s);
    var value, b := POS_INF, beta;
    for i := 0 to |actions|
      invariant Min(beta, Minimax.MinOver(cfg, p, s, i)) <= value <= Minimax.MinOver(cfg, p, s, i)
      invariant alpha < value && b == Min(beta, value)
    {
      var t := Result(cfg, s, actions[i]);
      var w := MaxValue(cfg, p, t, alpha, b);
      MinTurn(cfg, p, s, i, alpha, beta, value, w);
      value := Min(value, w);
      if value <= alpha {
        MinCut(cfg, p, s, i + 1, alpha, beta, value);
        return value;
      }
      b := Min(b, value);
    }
    MinDone(alpha, beta, value, Minimax.MinOver(cfg, p, s, |s.moves|), Minimax.MinValue(cfg, p, s));
    return value;
  }

  /** alpha_beta_search: the root loop opens each child's window at the best score
      so far, and keeps an action only when it beats that score strictly. It finds
      the same action as minimax_decision. */
  method AlphaBetaSearch(cfg: Config, s: State) returns (best: Option<Move>)
    requires WellFormed(cfg, s)
    ensures best == Minimax.MinimaxChoice(cfg, s)
  {
    var player := s.toMove;
    var actions := Actions(s);
    ghost var keys := Minimax.Keys(cfg, s);
    ghost var bestIndex := 0;
    var bestScore, beta := NEG_INF, POS_INF;
    best := None;
    for i := 0 to |actions|
      invariant i == 0 ==> best == None && bestScore == NEG_INF
      invariant i > 0 ==> bestIndex == BestIndex(keys, i) && bestScore == keys[bestIndex]
                          && best == Some(actions[bestIndex])
    {
      var t := Result(cfg, s, actions[i]);
      var value := MinValue(cfg, player, t, bestScore, beta);
      Minimax.ChildMinIs(cfg, player, s, i);
      Minimax.KeyAt(cfg, s, i);
      RootStep(keys, i, bestScore, value);
      if value > bestScore {
        bestScore, best, bestIndex := value, Some(actions[i]), i;
      }
    }
  }
}
