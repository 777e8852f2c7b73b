/** minimax_decision: the exhaustive game-tree search of tic-tac-toe.py. The game
    values are functions; the search itself is a pair of recursive methods whose
    loops fold the values of the successors, as max_value and min_value do. */
module Minimax {
  import opened Game
  import opened Choice

  /** The value of `s` for `p` when the side to move picks its best successor. */
  function MaxValue(cfg: Config, p: Player, s: State): (r: int)
    requires WellFormed(cfg, s)
    ensures -1 <= r <= 1
    decreases |s.moves|, 1
  {
    if TerminalTest(s) then Utility(s, p) else MaxOver(cfg, p, s, |s.moves|)
  }

  /** The value of `s` for `p` when the side to move picks p's worst successor. */
  function MinValue(cfg: Config, p: Player, s: State): (r: int)
    requires WellFormed(cfg, s)
    ensures -1 <= r <= 1
    decreases |s.moves|, 1
  {
    if TerminalTest(s) then Utility(s, p) else MinOver(cfg, p, s, |s.moves|)
  }

  /** max_value's `v` after its loop has seen the first `n` actions. */
  function MaxOver(cfg: Config, p: Player, s: State, n: nat): (r: int)
    requires WellFormed(cfg, s) && n <= |s.moves|
    ensures n == 0 ==> r == NEG_INF
    ensures n > 0 ==> -1 <= r <= 1
    decreases |s.moves|, 0, n, 1
  {
    if n == 0 then NEG_INF
    else Max(MaxOver(cfg, p, s, n - 1), ChildMin(cfg, p, s, n - 1))
  }

  /** min_value's `v` after its loop has seen the first `n` actions. */
  function MinOver(cfg: Config, p: Player, s: State, n: nat): (r: int)
    requires WellFormed(cfg, s) && n <= |s.moves|
    ensures n == 0 ==> r == POS_INF
    ensures n > 0 ==> -1 <= r <= 1
    decreases |s.moves|, 0, n, 1
  {
    if n == 0 then POS_INF
    else Min(MinOver(cfg, p, s, n - 1), ChildMax(cfg, p, s, n - 1))
  }

  function ChildMin(cfg: Config, p: Player, s: State, i: nat): (r: int)
    requires WellFormed(cfg, s) && i < |s.moves|
    ensures -1 <= r <= 1
    decreases |s.moves|, 0, i, 0
  {
    MinValue(cfg, p, Successor(cfg, s, s.moves[i]))
  }

  function ChildMax(cfg: Config, p: Player, s: State, i: nat): (r: int)
    requires WellFormed(cfg, s) && i < |s.moves|
    ensures -1 <= r <= 1
    decreases |s.moves|, 0, i, 0
  {
    MaxValue(cfg, p, Successor(cfg, s, s.moves[i]))
  }

  lemma MaxOverStep(cfg: Config, p: Player, s: State, n: nat)
    requires WellFormed(cfg, s) && 0 < n <= |s.moves|
    ensures MaxOver(cfg, p, s, n) == Max(MaxOver(cfg, p, s, n - 1), ChildMin(cfg, p, s, n - 1))
  {
  }

  lemma MinOverStep(cfg: Config, p: Player, s: State, n: nat)
    requires WellFormed(cfg, s) && 0 < n <= |s.moves|
    ensures MinOver(cfg, p, s, n) == Min(MinOver(cfg, p, s, n - 1), ChildMax(cfg, p, s, n - 1))
  {
  }

  lemma ChildMinIs(cfg: Config, p: Player, s: State, i: nat)
    requires WellFormed(cfg, s) && i < |s.moves|
    ensures ChildMin(cfg, p, s, i) == MinValue(cfg, p, Successor(cfg, s, s.moves[i]))
  {
  }

  lemma ChildMaxIs(cfg: Config, p: Player, s: State, i: nat)
    requires WellFormed(cfg, s) && i < |s.moves|
    ensures ChildMax(cfg, p, s, i) == MaxValue(cfg, p, Successor(cfg, s, s.moves[i]))
  {
  }

  /** The key of action `i` at the root: the min value of its successor for the root mover. */
  function Key(cfg: Config, s: State, i: nat): int
    requires WellFormed(cfg, s) && i < |s.moves|
  {
    ChildMin(cfg, s.toMove, s, i)
  }

  /** The keys of the first `n` actions, in the order of `moves`. */
  function KeysUpTo(cfg: Config, s: State, n: nat): (keys: seq<int>)
    requires WellFormed(cfg, s) && n <= |s.moves|
    ensures |keys| == n
    ensures forall i :: 0 <= i < n ==> -1 <= keys[i] <= 1
  {
    if n == 0 then [] else KeysUpTo(cfg, s, n - 1) + [Key(cfg, s, n - 1)]
  }

  function Keys(cfg: Config, s: State): (keys: seq<int>)
    requires WellFormed(cfg, s)
    ensures |keys| == |s.moves|
    ensures forall i :: 0 <= i < |keys| ==> -1 <= keys[i] <= 1
  {
    KeysUpTo(cfg, s, |s.moves|)
  }

  lemma {:induction false} KeysUpToAt(cfg: Config, s: State, n: nat, i: nat)
    requires WellFormed(cfg, s) && i < n <= |s.moves|
    ensures KeysUpTo(cfg, s, n)[i] == Key(cfg, s, i)
  {
    if i < n - 1 {
      KeysUpToAt(cfg, s, n - 1, i);
    }
  }

  /** Entry `i` of the keys is the key of action `i`. */
  lemma KeyAt(cfg: Config, s: State, i: nat)
    requires WellFormed(cfg, s) && i < |s.moves|
    ensures Keys(cfg, s)[i] == Key(cfg, s, i)
  {
    KeysUpToAt(cfg, s, |s.moves|, i);
  }

  /** minimax_decision's answer: the action `max` picks from the keys; None where
      Python's `max` would fail on an empty move list. */
  function MinimaxChoice(cfg: Config, s: State): (r: Option<Move>)
    requires WellFormed(cfg, s)
    ensures r.None? <==> |s.moves| == 0
  {
    if |s.moves| == 0 then None else Some(s.moves[BestIndex(Keys(cfg, s), |s.moves|)])
  }

  /** minimax_decision picks an action whose successor has the greatest min value,
      and the first such action in the order of `moves`. */
  lemma MinimaxChoiceIsFirstBest(cfg: Config, s: State)
    requires WellFormed(cfg, s) && |s.moves| > 0
    ensures exists i :: 0 <= i < |s.moves| && MinimaxChoice(cfg, s) == Some(s.moves[i])
                        && (forall j :: 0 <= j < |s.moves| ==> Key(cfg, s, j) <= Key(cfg, s, i))
                        && (forall j :: 0 <= j < i ==> Key(cfg, s, j) < Key(cfg, s, i))
  {
    var keys := Keys(cfg, s);
    BestIndexIsFirstMax(keys, |keys|);
    var i := BestIndex(keys, |keys|);
    forall j | 0 <= j < |keys|
      ensures keys[j] == Key(cfg, s, j)
    {
      KeyAt(cfg, s, j);
    }
    assert MinimaxChoice(cfg, s) == Some(s.moves[i]);
  }

  /** The fold in max_value only grows as it sees more actions. */
  lemma {:induction false} MaxOverGrows(cfg: Config, p: Player, s: State, i: nat, n: nat)
    requires WellFormed(cfg, s) && i <= n <= |s.moves|
    ensures MaxOver(cfg, p, s, i) <= MaxOver(cfg, p, s, n)
    decreases n
  {
    if i < n {
      MaxOverGrows(cfg, p, s, i, n - 1);
      MaxOverStep(cfg, p, s, n);
    }
  }

  /** The fold in min_value only shrinks as it sees more actions. */
  lemma {:induction false} MinOverShrinks(cfg: Config, p: Player, s: State, i: nat, n: nat)
    requires WellFormed(cfg, s) && i <= n <= |s.moves|
    ensures MinOver(cfg, p, s, n) <= MinOver(cfg, p, s, i)
    decreases n
  {
    if i < n {
      MinOverShrinks(cfg, p, s, i, n - 1);
      MinOverStep(cfg, p, s, n);
    }
  }

  /** Zero-sum duality: maximising for `p` is minimising for the opponent, negated. */
  lemma {:induction false} ZeroSumDuality(cfg: Config, p: Player, s: State)
    requires WellFormed(cfg, s)
    ensures MaxValue(cfg, p, s) == -MinValue(cfg, Other(p), s)
    ensures MinValue(cfg, p, s) == -MaxValue(cfg, Other(p), s)
    decreases |s.moves|, 1
  {
    if !TerminalTest(s) {
      ZeroSumDualityOver(cfg, p, s, |s.moves|);
      ZeroSumDualityOver(cfg, Other(p), s, |s.moves|);
    }
  }

  lemma {:induction false} ZeroSumDualityOver(cfg: Config, p: Player, s: State, n: nat)
    requires WellFormed(cfg, s) && n <= |s.moves|
    ensures MaxOver(cfg, p, s, n) == -MinOver(cfg, Other(p), s, n)
    decreases |s.moves|, 0, n, 1
  {
    if n > 0 {
      ZeroSumDualityOver(cfg, p, s, n - 1);
      ChildDuality(cfg, p, s, n - 1);
      MaxOverStep(cfg, p, s, n);
      MinOverStep(cfg, Other(p), s, n);
    }
  }

  lemma {:induction false} ChildDuality(cfg: Config, p: Player, s: State, i: nat)
    requires WellFormed(cfg, s) && i < |s.moves|
    ensures ChildMin(cfg, p, s, i) == -ChildMax(cfg, Other(p), s, i)
    decreases |s.moves|, 0, i, 0
  {
    ZeroSumDuality(cfg, p, Successor(cfg, s, s.moves[i]));
    ChildMinIs(cfg, p, s, i);
    ChildMaxIs(cfg, Other(p), s, i);
  }

  /** max_value of minimax_decision. */
  method SearchMax(cfg: Config, p: Player, s: State) returns (v: int)
    requires WellFormed(cfg, s)
    ensures v == MaxValue(cfg, p, s)
    decreases |s.moves|, 1
  {
    if TerminalTest(s) {
      return Utility(s, p);
    }
    v := NEG_INF;
    var actions := Actions(s);
    for i := 0 to |actions|
      invariant v == MaxOver(cfg, p, s, i)
    {
      var t := Result(cfg, s, actions[i]);
      var w := SearchMin(cfg, p, t);
      v := Max(v, w);
    }
  }

  /** min_value of minimax_decision. */
  method SearchMin(cfg: Config, p: Player, s: State) returns (v: int)
    requires WellFormed(cfg, s)
    ensures v == MinValue(cfg, p, s)
    decreases |s.moves|, 1
  {
    if TerminalTest(s) {
      return Utility(s, p);
    }
    v := POS_INF;
    var actions := Actions(s);
    for i := 0 to |actions|
      invariant v == MinOver(cfg, p, s, i)
    {
      var t := Result(cfg, s, actions[i]);
      var w := SearchMax(cfg, p, t);
      v := Min(v, w);
    }
  }

  /** The key function minimax_decision hands to `max`: min_value of the successor. */
  method ActionKey(cfg: Config, s: State, i: nat) returns (key: int)
    requires WellFormed(cfg, s) && i < |s.moves|
    ensures key == Key(cfg, s, i)
  {
    var t := Result(cfg, s, s.moves[i]);
    key := SearchMin(cfg, s.toMove, t);
  }

  /** minimax_decision: Python's `max` over the actions keyed by min_value of each
      successor, keeping the first action of greatest key. */
  method MinimaxDecision(cfg: Config, s: State) returns (choice: Option<Move>)
    requires WellFormed(cfg, s)
    ensures choice == MinimaxChoice(cfg, s)
  {
    var actions := Actions(s);
    ghost var keys := Keys(cfg, s);
    choice := None;
    var bestIndex, bestKey := 0, NEG_INF;
    for i := 0 to |actions|
      invariant i == 0 ==> choice == None
      invariant i > 0 ==> bestIndex == BestIndex(keys, i) && bestKey == keys[bestIndex]
                          && choice == Some(actions[bestIndex])
    {
      var key := ActionKey(cfg, s, i);
      KeyAt(cfg, s, i);
      BestIndexStep(keys, i + 1);
      if i == 0 || key > bestKey {
        choice, bestIndex, bestKey := Some(actions[i]), i, key;
      }
    }
  }
}
