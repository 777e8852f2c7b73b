/** depth_limit_search: minimax with a depth bound. A node is evaluated instead of
    expanded once it is terminal or lies deeper than the limit; its evaluation is
    the utility for the root player, so a cut-off position that is not yet decided
    counts as a draw. The root's successors sit at depth 1. */
module DepthLimited {
  import opened Game
  import opened Choice
  import Minimax

  /** The default depth limit of depth_limit_search. */
  const DEFAULT_LIMIT: nat := 6

  /** The intended cutoff test: deeper than the limit, or the game is over. */
  predicate CutoffTest(s: State, depth: nat, limit: nat)
  {
    depth > limit || TerminalTest(s)
  }

  /** The value of `s`, at `depth`, for `p`, when the side to move picks its best
      successor. */
  function CutMax(cfg: Config, p: Player, limit: nat, s: State, depth: nat): (r: int)
    requires WellFormed(cfg, s)
    ensures -1 <= r <= 1
    decreases |s.moves|, 1
  {
    if CutoffTest(s, depth, limit) then Utility(s, p) else CutMaxOver(cfg, p, limit, s, depth, |s.moves|)
  }

  function CutMin(cfg: Config, p: Player, limit: nat, s: State, depth: nat): (r: int)
    requires WellFormed(cfg, s)
    ensures -1 <= r <= 1
    decreases |s.moves|, 1
  {
    if CutoffTest(s, depth, limit) then Utility(s, p) else CutMinOver(cfg, p, limit, s, depth, |s.moves|)
  }

  /** max_value's `value` after its loop has seen the first `n` actions. */
  function CutMaxOver(cfg: Config, p: Player, limit: nat, s: State, depth: nat, n: nat): (r: int)
    requires WellFormed(cfg, s) && n <= |s.moves|
    ensures n == 0 ==> r == NEG_INF
    ensures n > 0 ==> -1 <= r <= 1
    decreases |s.moves|, 0, n, 1
  {
    if n == 0 then NEG_INF
    else Max(CutMaxOver(cfg, p, limit, s, depth, n - 1), CutChildMin(cfg, p, limit, s, depth, n - 1))
  }

  /** min_value's `value` after its loop has seen the first `n` actions. */
  function CutMinOver(cfg: Config, p: Player, limit: nat, s: State, depth: nat, n: nat): (r: int)
    requires WellFormed(cfg, s) && n <= |s.moves|
    ensures n == 0 ==> r == POS_INF
    ensures n > 0 ==> -1 <= r <= 1
    decreases |s.moves|, 0, n, 1
  {
    if n == 0 then POS_INF
    else Min(CutMinOver(cfg, p, limit, s, depth, n - 1), CutChildMax(cfg, p, limit, s, depth, n - 1))
  }

  function CutChildMin(cfg: Config, p: Player, limit: nat, s: State, depth: nat, i: nat): (r: int)
    requires WellFormed(cfg, s) && i < |s.moves|
    ensures -1 <= r <= 1
    decreases |s.moves|, 0, i, 0
  {
    CutMin(cfg, p, limit, Successor(cfg, s, s.moves[i]), depth + 1)
  }

  function CutChildMax(cfg: Config, p: Player, limit: nat, s: State, depth: nat, i: nat): (r: int)
    requires WellFormed(cfg, s) && i < |s.moves|
    ensures -1 <= r <= 1
    decreases |s.moves|, 0, i, 0
  {
    CutMax(cfg, p, limit, Successor(cfg, s, s.moves[i]), depth + 1)
  }

  lemma CutMaxOverStep(cfg: Config, p: Player, limit: nat, s: State, depth: nat, n: nat)
    requires WellFormed(cfg, s) && 0 < n <= |s.moves|
    ensures CutMaxOver(cfg, p, limit, s, depth, n)
            == Max(CutMaxOver(cfg, p, limit, s, depth, n - 1), CutChildMin(cfg, p, limit, s, depth, n - 1))
  {
  }

  lemma CutMinOverStep(cfg: Config, p: Player, limit: nat, s: State, depth: nat, n: nat)
    requires WellFormed(cfg, s) && 0 < n <= |s.moves|
    ensures CutMinOver(cfg, p, limit, s, depth, n)
            == Min(CutMinOver(cfg, p, limit, s, depth, n - 1), CutChildMax(cfg, p, limit, s, depth, n - 1))
  {
  }

  lemma CutChildMinIs(cfg: Config, p: Player, limit: nat, s: State, depth: nat, i: nat)
    requires WellFormed(cfg, s) && i < |s.moves|
    ensures CutChildMin(cfg, p, limit, s, depth, i) == CutMin(cfg, p, limit, Successor(cfg, s, s.moves[i]), depth + 1)
  {
  }

  lemma CutChildMaxIs(cfg: Config, p: Player, limit: nat, s: State, depth: nat, i: nat)
    requires WellFormed(cfg, s) && i < |s.moves|
    ensures CutChildMax(cfg, p, limit, s, depth, i) == CutMax(cfg, p, limit, Successor(cfg, s, s.moves[i]), depth + 1)
  {
  }

  /** Where no node of the tree below `s` lies deeper than the limit before the
      game ends, the depth-limited values are the minimax values. Only a node with
      a move left can be cut off by depth, and such a node below `s` lies at most
      `|s.moves| - 1` levels down. */
  lemma {:induction false} NoCutoffAgrees(cfg: Config, p: Player, limit: nat, s: State, depth: nat)
    requires WellFormed(cfg, s) && depth + |s.moves| <= limit + 1
    ensures CutMax(cfg, p, limit, s, depth) == Minimax.MaxValue(cfg, p, s)
    ensures CutMin(cfg, p, limit, s, depth) == Minimax.MinValue(cfg, p, s)
    decreases |s.moves|, 1
  {
    if !TerminalTest(s) {
      NoCutoffAgreesOver(cfg, p, limit, s, depth, |s.moves|);
    }
  }

  lemma {:induction false} NoCutoffAgreesOver(cfg: Config, p: Player, limit: nat, s: State, depth: nat, n: nat)
    requires WellFormed(cfg, s) && n <= |s.moves| && depth + |s.moves| <= limit + 1
    ensures CutMaxOver(cfg, p, limit, s, depth, n) == Minimax.MaxOver(cfg, p, s, n)
    ensures CutMinOver(cfg, p, limit, s, depth, n) == Minimax.MinOver(cfg, p, s, n)
    decreases |s.moves|, 0, n, 1
  {
    if n > 0 {
      NoCutoffAgreesOver(cfg, p, limit, s, depth, n - 1);
      NoCutoffChildAgrees(cfg, p, limit, s, depth, n - 1);
      CutMaxOverStep(cfg, p, limit, s, depth, n);
      CutMinOverStep(cfg, p, limit, s, depth, n);
      Minimax.MaxOverStep(cfg, p, s, n);
      Minimax.MinOverStep(cfg, p, s, n);
    }
  }

  lemma {:induction false} NoCutoffChildAgrees(cfg: Config, p: Player, limit: nat, s: State, depth: nat, i: nat)
    requires WellFormed(cfg, s) && i < |s.moves| && depth + |s.moves| <= limit + 1
    ensures CutChildMin(cfg, p, limit, s, depth, i) == Minimax.ChildMin(cfg, p, s, i)
    ensures CutChildMax(cfg, p, limit, s, depth, i) == Minimax.ChildMax(cfg, p, s, i)
    decreases |s.moves|, 0, i, 0
  {
    var t := Successor(cfg, s, s.moves[i]);
    assert |t.moves| == |s.moves| - 1;
    NoCutoffAgrees(cfg, p, limit, t, depth + 1);
    CutChildMinIs(cfg, p, limit, s, depth, i);
    CutChildMaxIs(cfg, p, limit, s, depth, i);
    Minimax.ChildMinIs(cfg, p, s, i);
    Minimax.ChildMaxIs(cfg, p, s, i);
  }

  /** The key of action `i` at the root: min_value of its successor at depth 1. */
  function CutKey(cfg: Config, limit: nat, s: State, i: nat): int
    requires WellFormed(cfg, s) && i < |s.moves|
  {
    CutChildMin(cfg, s.toMove, limit, s, 0, i)
  }

  /** The keys of the first `n` actions, in the order of `moves`. */
  function CutKeysUpTo(cfg: Config, limit: nat, s: State, n: nat): (keys: seq<int>)
    requires WellFormed(cfg, s) && n <= |s.moves|
    ensures |keys| == n
    ensures forall i :: 0 <= i < n ==> -1 <= keys[i] <= 1
  {
    if n == 0 then [] else CutKeysUpTo(cfg, limit, s, n - 1) + [CutKey(cfg, limit, s, n - 1)]
  }

  function CutKeys(cfg: Config, limit: nat, s: State): (keys: seq<int>)
    requires WellFormed(cfg, s)
    ensures |keys| == |s.moves|
    ensures forall i :: 0 <= i < |keys| ==> -1 <= keys[i] <= 1
  {
    CutKeysUpTo(cfg, limit, s, |s.moves|)
  }

  lemma {:induction false} CutKeysUpToAt(cfg: Config, limit: nat, s: State, n: nat, i: nat)
    requires WellFormed(cfg, s) && i < n <= |s.moves|
    ensures CutKeysUpTo(cfg, limit, s, n)[i] == CutKey(cfg, limit, s, i)
  {
    if i < n - 1 {
      CutKeysUpToAt(cfg, limit, s, n - 1, i);
    }
  }

  /** Entry `i` of the keys is the key of action `i`. */
  lemma CutKeyAt(cfg: Config, limit: nat, s: State, i: nat)
    requires WellFormed(cfg, s) && i < |s.moves|
    ensures CutKeys(cfg, limit, s)[i] == CutKey(cfg, limit, s, i)
  {
    CutKeysUpToAt(cfg, limit, s, |s.moves|, i);
  }

  /** depth_limit_search's answer: the first action of greatest key; None where
      Python's `max` would fail on an empty move list. */
  function DepthChoice(cfg: Config, limit: nat, s: State): (r: Option<Move>)
    requires WellFormed(cfg, s)
    ensures r.None? <==> |s.moves| == 0
  {
    if |s.moves| == 0 then None else Some(s.moves[BestIndex(CutKeys(cfg, limit, s), |s.moves|)])
  }

  /** depth_limit_search picks one of the actions, one whose depth-limited key is
      greatest, and the first such action in the order of `moves`. */
  lemma DepthChoiceIsFirstBest(cfg: Config, limit: nat, s: State)
    requires WellFormed(cfg, s) && |s.moves| > 0
    ensures exists i :: 0 <= i < |s.moves| && DepthChoice(cfg, limit, s) == Some(s.moves[i])
                        && (forall j :: 0 <= j < |s.moves| ==> CutKey(cfg, limit, s, j) <= CutKey(cfg, limit, s, i))
                        && (forall j :: 0 <= j < i ==> CutKey(cfg, limit, s, j) < CutKey(cfg, limit, s, i))
  {
    var keys := CutKeys(cfg, limit, s);
    BestIndexIsFirstMax(keys, |keys|);
    var i := BestIndex(keys, |keys|);
    forall j | 0 <= j < |keys|
      ensures keys[j] == CutKey(cfg, limit, s, j)
    {
      CutKeyAt(cfg, limit, s, j);
    }
    assert DepthChoice(cfg, limit, s) == Some(s.moves[i]);
  }

  /** A limit of at least the number of moves left, less one, never cuts the
      search short: depth_limit_search then picks what minimax_decision picks. */
  lemma DeepEnoughIsMinimax(cfg: Config, limit: nat, s: State)
    requires WellFormed(cfg, s) && |s.moves| <= limit + 1
    ensures DepthChoice(cfg, limit, s) == Minimax.MinimaxChoice(cfg, s)
  {
    var keys, cutKeys := Minimax.Keys(cfg, s), CutKeys(cfg, limit, s);
    forall i | 0 <= i < |s.moves|
      ensures cutKeys[i] == keys[i]
    {
      CutKeyAt(cfg, limit, s, i);
      Minimax.KeyAt(cfg, s, i);
      NoCutoffChildAgrees(cfg, s.toMove, limit, s, 0, i);
    }
    assert cutKeys == keys;
  }

  /** max_value of depth_limit_search. */
  method SearchMax(cfg: Config, p: Player, limit: nat, s: State, depth: nat) returns (v: int)
    requires WellFormed(cfg, s)
    ensures v == CutMax(cfg, p, limit, s, depth)
    decreases |s.moves|, 1
  {
    if CutoffTest(s, depth, limit) {
      return Utility(s, p);
    }
    v := NEG_INF;
    var actions := Actions(s);
    for i := 0 to |actions|
      invariant v == CutMaxOver(cfg, p, limit, s, depth, i)
    {
      var t := Result(cfg, s, actions[i]);
      var w := SearchMin(cfg, p, limit, t, depth + 1);
      v := Max(v, w);
    }
  }

  /** min_value of depth_limit_search. */
  method SearchMin(cfg: Config, p: Player, limit: nat, s: State, depth: nat) returns (v: int)
    requires WellFormed(cfg, s)
    ensures v == CutMin(cfg, p, limit, s, depth)
    decreases |s.moves|, 1
  {
    if CutoffTest(s, depth, limit) {
      return Utility(s, p);
    }
    v := POS_INF;
    var actions := Actions(s);
    for i := 0 to |actions|
      invariant v == CutMinOver(cfg, p, limit, s, depth, i)
    {
      var t := Result(cfg, s, actions[i]);
      var w := SearchMax(cfg, p, limit, t, depth + 1);
      v := Min(v, w);
    }
  }

  /** The key function depth_limit_search hands to `max`: min_value of the
      successor at depth 1. */
  method ActionKey(cfg: Config, limit: nat, s: State, i: nat) returns (key: int)
    requires WellFormed(cfg, s) && i < |s.moves|
    ensures key == CutKey(cfg, limit, s, i)
  {
    var t := Result(cfg, s, s.moves[i]);
    key := SearchMin(cfg, s.toMove, limit, t, 1);
  }

  /** depth_limit_search: Python's `max` over the actions keyed by the depth-limited
      min value of each successor, keeping the first action of greatest key. */
  method DepthLimitSearch(cfg: Config, s: State, limit: nat := DEFAULT_LIMIT) returns (choice: Option<Move>)
    requires WellFormed(cfg, s)
    ensures choice == DepthChoice(cfg, limit, s)
  {
    var actions := Actions(s);
    ghost var keys := CutKeys(cfg, limit, s);
    choice := None;
    var bestIndex, bestKey := 0, NEG_INF;
    for i := 0 to |actions|
      invariant i == 0 ==> choice == None
      invariant i > 0 ==> bestIndex == BestIndex(keys, i) && bestKey == keys[bestIndex]
                          && choice == Some(actions[bestIndex])
    {
      var key := ActionKey(cfg, limit, s, i);
      CutKeyAt(cfg, limit, s, i);
      BestIndexStep(keys, i + 1);
      if i == 0 || key > bestKey {
        choice, bestIndex, bestKey := Some(actions[i]), i, key;
      }
    }
  }
}
