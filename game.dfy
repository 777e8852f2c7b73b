/** The k-in-a-row game of tic-tac-toe.py: states, move generation, successor states,
    the run count along one direction and the cached utility of a position. */
module Game {

  datatype Player = X | O

  /** One board square: the `'-'` of an empty square, or a player's mark. */
  datatype Cell = Empty | Mark(player: Player)

  /** A coordinate pair (row, column); also used for a direction (dx, dy). */
  type Move = (int, int)

  type Board = seq<seq<Cell>>

  /** The game's fixed parameters: an h × v board on which k in a row wins. */
  datatype Config = Config(h: nat, v: nat, k: int)

  /** A position: whose turn it is, the utility cached when the position was made
      (+1 when X has just won, -1 when O has), the board and the remaining moves. */
  datatype State = State(toMove: Player, utility: int, board: Board, moves: seq<Move>)

  /** TicTacToe's default parameters: a 3 × 3 board on which 3 in a row wins. */
  const DEFAULT_CONFIG: Config := Config(3, 3, 3)

  /** The four line directions compute_utility tries, in its order. */
  const DIRECTIONS: seq<Move> := [(0, 1), (1, 0), (1, -1), (1, 1)]

  function Other(p: Player): Player
  {
    if p == X then O else X
  }

  /** +1 for X, -1 for O: how a win by `p` is scored from X's side. */
  function Sign(p: Player): int
  {
    if p == X then 1 else -1
  }

  predicate InBounds(cfg: Config, m: Move)
  {
    0 <= m.0 < cfg.h && 0 <= m.1 < cfg.v
  }

  predicate BoardShape(cfg: Config, board: Board)
  {
    |board| == cfg.h && forall i :: 0 <= i < |board| ==> |board[i]| == cfg.v
  }

  /** What result needs of a state, and what every state the searches reach has:
      an h × v board, a utility in {-1, 0, 1}, and moves that are squares of the board. */
  predicate WellFormed(cfg: Config, s: State)
  {
    && BoardShape(cfg, s.board)
    && -1 <= s.utility <= 1
    && (forall i :: 0 <= i < |s.moves| ==> InBounds(cfg, s.moves[i]))
  }

  predicate Distinct(ms: seq<Move>)
  {
    forall i, j :: 0 <= i < j < |ms| ==> ms[i] != ms[j]
  }

  /** The invariant of every state built from Initial by Successor: it is well formed,
      and its move list holds each empty square of the board exactly once. */
  ghost predicate ValidState(cfg: Config, s: State)
  {
    && WellFormed(cfg, s)
    && Distinct(s.moves)
    && (forall m :: InBounds(cfg, m) ==> (m in s.moves <==> s.board[m.0][m.1] == Empty))
  }

  // ---------------------------------------------------------------------------
  // The initial state

  /** Row-major order on squares: by row, then by column. */
  predicate Before(a: Move, b: Move)
  {
    a.0 < b.0 || (a.0 == b.0 && a.1 < b.1)
  }

  function RowCells(x: int, v: nat): (r: seq<Move>)
    ensures |r| == v
    ensures forall y :: 0 <= y < v ==> r[y] == (x, y)
  {
    seq(v, y => (x, y))
  }

  /** The comprehension `[(x, y) for x in range(0, h) for y in range(0, v)]`. */
  function Cells(h: nat, v: nat): (r: seq<Move>)
    ensures forall m :: m in r <==> 0 <= m.0 < h && 0 <= m.1 < v
    ensures forall i, j :: 0 <= i < j < |r| ==> Before(r[i], r[j])
  {
    if h == 0 then [] else Cells(h - 1, v) + RowCells(h - 1, v)
  }

  function EmptyBoard(cfg: Config): (b: Board)
    ensures BoardShape(cfg, b)
    ensures forall m :: InBounds(cfg, m) ==> b[m.0][m.1] == Empty
  {
    seq(cfg.h, _ => seq(cfg.v, _ => Empty))
  }

  /** TicTacToe.__init__'s `initial`: empty board, X to move, utility 0, every
      square a move, in row-major order. */
  function Initial(cfg: Config := DEFAULT_CONFIG): (s: State)
    ensures ValidState(cfg, s)
    ensures s.toMove == X && s.utility == 0
    ensures forall m :: InBounds(cfg, m) ==> s.board[m.0][m.1] == Empty
    ensures forall m :: m in s.moves <==> InBounds(cfg, m)
    ensures forall i, j :: 0 <= i < j < |s.moves| ==> Before(s.moves[i], s.moves[j])
  {
    State(X, 0, EmptyBoard(cfg), Cells(cfg.h, cfg.v))
  }

  // ---------------------------------------------------------------------------
  // Runs of one player's marks: the loops of k_in_row

  /** A direction step that changes at least one coordinate by one. */
  predicate UnitStep(d: Move)
  {
    -1 <= d.0 <= 1 && -1 <= d.1 <= 1 && (d.0 != 0 || d.1 != 0)
  }

  function Neg(d: Move): Move
  {
    (-d.0, -d.1)
  }

  /** The square `i` steps from `m` along `d`. */
  function Step(m: Move, d: Move, i: int): Move
  {
    (m.0 + i * d.0, m.1 + i * d.1)
  }

  predicate Marked(cfg: Config, board: Board, m: Move, p: Player)
    requires BoardShape(cfg, board)
  {
    InBounds(cfg, m) && board[m.0][m.1] == Mark(p)
  }

  /** How many more steps along `d` a walk from `m` can take before it leaves the board. */
  function Distance(cfg: Config, m: Move, d: Move): int
  {
    (if d.0 > 0 then cfg.h - m.0 else if d.0 < 0 then m.0 + 1 else 0)
    + (if d.1 > 0 then cfg.v - m.1 else if d.1 < 0 then m.1 + 1 else 0)
  }

  /** The number of squares a walk from `m` along `d` passes over before it meets
      the edge of the board or a square without `p`'s mark. */
  function Run(cfg: Config, board: Board, m: Move, d: Move, p: Player): nat
    requires BoardShape(cfg, board) && UnitStep(d)
    decreases Distance(cfg, m, d)
  {
    if Marked(cfg, board, m, p) then 1 + Run(cfg, board, (m.0 + d.0, m.1 + d.1), d, p) else 0
  }

  /** What k_in_row returns: the forward walk plus the backward walk, less the
      starting square that both walks counted. */
  function RunLength(cfg: Config, board: Board, m: Move, p: Player, d: Move): (n: int)
    requires BoardShape(cfg, board) && UnitStep(d)
    ensures Marked(cfg, board, m, p) ==> n >= 1
    ensures !Marked(cfg, board, m, p) ==> n == -1
  {
    Run(cfg, board, m, d, p) + Run(cfg, board, m, Neg(d), p) - 1
  }

  /** k_in_row: two while loops that walk away from `move` in both senses of `d`. */
  method KInRow(cfg: Config, board: Board, move: Move, p: Player, d: Move) returns (n: int)
    requires BoardShape(cfg, board) && UnitStep(d)
    ensures n == RunLength(cfg, board, move, p, d)
  {
    var x, y := move.0, move.1;
    n := 0;
    while Marked(cfg, board, (x, y), p)
      invariant n + Run(cfg, board, (x, y), d, p) == Run(cfg, board, move, d, p)
      decreases Run(cfg, board, (x, y), d, p)
    {
      n := n + 1;
      x, y := x + d.0, y + d.1;
    }
    x, y := move.0, move.1;
    while Marked(cfg, board, (x, y), p)
      invariant n + Run(cfg, board, (x, y), Neg(d), p)
             == Run(cfg, board, move, d, p) + Run(cfg, board, move, Neg(d), p)
      decreases Run(cfg, board, (x, y), Neg(d), p)
    {
      assert (x - d.0, y - d.1) == (x + Neg(d).0, y + Neg(d).1);
      n := n + 1;
      x, y := x - d.0, y - d.1;
    }
    n := n - 1;
  }

  // ---------------------------------------------------------------------------
  // Lines of k marks

  /** `len` squares in a row from `start` along `d`, every one on the board and marked by `p`. */
  predicate Line(cfg: Config, board: Board, start: Move, d: Move, len: int, p: Player)
    requires BoardShape(cfg, board)
  {
    forall i :: 0 <= i < len ==> Marked(cfg, board, Step(start, d, i), p)
  }

  /** The line of k squares along `d` that starts `t` steps behind `m` is all `p`'s. */
  predicate LineThrough(cfg: Config, board: Board, m: Move, d: Move, t: int, p: Player)
    requires BoardShape(cfg, board)
  {
    Line(cfg, board, Step(m, d, -t), d, cfg.k, p)
  }

  /** Some line of k of `p`'s marks in one of the four directions passes through `m`. */
  ghost predicate HasLineThrough(cfg: Config, board: Board, m: Move, p: Player)
    requires BoardShape(cfg, board)
  {
    exists d, t :: d in DIRECTIONS && 0 <= t < cfg.k && LineThrough(cfg, board, m, d, t, p)
  }

  lemma StepAdd(m: Move, d: Move, a: int, b: int)
    ensures Step(Step(m, d, a), d, b) == Step(m, d, a + b)
  {
    assert a * d.0 + b * d.0 == (a + b) * d.0;
    assert a * d.1 + b * d.1 == (a + b) * d.1;
  }

  lemma StepNeg(m: Move, d: Move, j: int)
    ensures Step(m, Neg(d), j) == Step(m, d, -j)
  {
    assert j * -d.0 == -j * d.0;
    assert j * -d.1 == -j * d.1;
  }

  /** Every square a run passes over is on the board and holds `p`'s mark. */
  lemma {:induction false} RunCells(cfg: Config, board: Board, m: Move, d: Move, p: Player, i: int)
    requires BoardShape(cfg, board) && UnitStep(d)
    requires 0 <= i < Run(cfg, board, m, d, p)
    ensures Marked(cfg, board, Step(m, d, i), p)
    decreases i
  {
    if i == 0 {
      assert Step(m, d, 0) == m;
    } else {
      var next := (m.0 + d.0, m.1 + d.1);
      assert next == Step(m, d, 1);
      RunCells(cfg, board, next, d, p, i - 1);
      StepAdd(m, d, 1, i - 1);
    }
  }

  /** A run is at least as long as any stretch of marked squares that starts where it does. */
  lemma {:induction false} RunAtLeast(cfg: Config, board: Board, m: Move, d: Move, p: Player, c: nat)
    requires BoardShape(cfg, board) && UnitStep(d)
    requires forall i :: 0 <= i < c ==> Marked(cfg, board, Step(m, d, i), p)
    ensures Run(cfg, board, m, d, p) >= c
    decreases c
  {
    if c > 0 {
      assert Step(m, d, 0) == m;
      assert Marked(cfg, board, m, p);
      var next := (m.0 + d.0, m.1 + d.1);
      assert next == Step(m, d, 1);
      forall i | 0 <= i < c - 1
        ensures Marked(cfg, board, Step(next, d, i), p)
      {
        StepAdd(m, d, 1, i);
        assert Marked(cfg, board, Step(m, d, 1 + i), p);
      }
      RunAtLeast(cfg, board, next, d, p, c - 1);
    }
  }

  /** A run count of at least k yields a line of k marks through the square. */
  lemma RunLengthGivesLine(cfg: Config, board: Board, m: Move, p: Player, d: Move)
    requires BoardShape(cfg, board) && UnitStep(d)
    requires cfg.k >= 1 && RunLength(cfg, board, m, p, d) >= cfg.k
    ensures 0 <= RunLineOffset(cfg, board, m, p, d) < cfg.k
    ensures LineThrough(cfg, board, m, d, RunLineOffset(cfg, board, m, p, d), p)
  {
    var k := cfg.k;
    var t := RunLineOffset(cfg, board, m, p, d);
    var start := Step(m, d, -t);
    forall i | 0 <= i < k
      ensures Marked(cfg, board, Step(start, d, i), p)
    {
      StepAdd(m, d, -t, i);
      if i - t >= 0 {
        RunCells(cfg, board, m, d, p, i - t);
      } else {
        RunCells(cfg, board, m, Neg(d), p, t - i);
        StepNeg(m, d, t - i);
      }
    }
  }

  /** Where the line of RunLengthGivesLine starts, counted in steps behind `m`. */
  function RunLineOffset(cfg: Config, board: Board, m: Move, p: Player, d: Move): int
    requires BoardShape(cfg, board) && UnitStep(d)
  {
    var b := Run(cfg, board, m, Neg(d), p);
    if b - 1 < cfg.k - 1 then b - 1 else cfg.k - 1
  }

  /** A line of k marks through the square makes the run count reach k. */
  lemma LineGivesRunLength(cfg: Config, board: Board, m: Move, p: Player, d: Move, t: int)
    requires BoardShape(cfg, board) && UnitStep(d)
    requires 0 <= t < cfg.k && LineThrough(cfg, board, m, d, t, p)
    ensures RunLength(cfg, board, m, p, d) >= cfg.k
  {
    var k := cfg.k;
    var start := Step(m, d, -t);
    forall j | 0 <= j < k - t
      ensures Marked(cfg, board, Step(m, d, j), p)
    {
      StepAdd(m, d, -t, t + j);
      assert Marked(cfg, board, Step(start, d, t + j), p);
    }
    RunAtLeast(cfg, board, m, d, p, k - t);
    forall j | 0 <= j < t + 1
      ensures Marked(cfg, board, Step(m, Neg(d), j), p)
    {
      StepAdd(m, d, -t, t - j);
      StepNeg(m, d, j);
      assert Marked(cfg, board, Step(start, d, t - j), p);
    }
    RunAtLeast(cfg, board, m, Neg(d), p, t + 1);
  }

  /** k_in_row reaches k exactly when a line of k marks through the square lies along `d`. */
  lemma RunLengthIffLine(cfg: Config, board: Board, m: Move, p: Player, d: Move)
    requires BoardShape(cfg, board) && UnitStep(d) && cfg.k >= 1
    ensures RunLength(cfg, board, m, p, d) >= cfg.k
        <==> exists t :: 0 <= t < cfg.k && LineThrough(cfg, board, m, d, t, p)
  {
    if RunLength(cfg, board, m, p, d) >= cfg.k {
      RunLengthGivesLine(cfg, board, m, p, d);
    }
    if exists t :: 0 <= t < cfg.k && LineThrough(cfg, board, m, d, t, p) {
      var t :| 0 <= t < cfg.k && LineThrough(cfg, board, m, d, t, p);
      LineGivesRunLength(cfg, board, m, p, d, t);
    }
  }

  // ---------------------------------------------------------------------------
  // Utility of the move just played: compute_utility

  /** The value compute_utility returns. */
  function MoveUtility(cfg: Config, board: Board, m: Move, p: Player): (u: int)
    requires BoardShape(cfg, board)
    ensures u == 0 || u == Sign(p)
  {
    UtilityAlong(cfg, board, m, p, DIRECTIONS)
  }

  /** compute_utility's chain of `or`s over the directions `ds`, tried in order. */
  function UtilityAlong(cfg: Config, board: Board, m: Move, p: Player, ds: seq<Move>): (u: int)
    requires BoardShape(cfg, board) && forall d :: d in ds ==> UnitStep(d)
    ensures u == 0 || u == Sign(p)
  {
    if |ds| == 0 then 0
    else if RunLength(cfg, board, m, p, ds[0]) >= cfg.k then Sign(p)
    else UtilityAlong(cfg, board, m, p, ds[1..])
  }

  /** The chain scores a win exactly when one of the directions has a run of k. */
  lemma {:induction false} UtilityAlongFindsRun(cfg: Config, board: Board, m: Move, p: Player, ds: seq<Move>)
    requires BoardShape(cfg, board) && forall d :: d in ds ==> UnitStep(d)
    ensures UtilityAlong(cfg, board, m, p, ds)
            == if exists d :: d in ds && RunLength(cfg, board, m, p, d) >= cfg.k then Sign(p) else 0
  {
    if |ds| > 0 {
      UtilityAlongFindsRun(cfg, board, m, p, ds[1..]);
      assert forall d :: d in ds <==> d == ds[0] || d in ds[1..];
    }
  }

  /** Win detection: after `p` marks `m`, the utility is p's sign exactly when a line
      of k of p's marks through `m` lies in one of the four directions, and 0 otherwise. */
  lemma MoveUtilityDetectsLine(cfg: Config, board: Board, m: Move, p: Player)
    requires BoardShape(cfg, board) && cfg.k >= 1
    ensures MoveUtility(cfg, board, m, p) == (if HasLineThrough(cfg, board, m, p) then Sign(p) else 0)
  {
    forall d | d in DIRECTIONS
      ensures RunLength(cfg, board, m, p, d) >= cfg.k
          <==> exists t :: 0 <= t < cfg.k && LineThrough(cfg, board, m, d, t, p)
    {
      RunLengthIffLine(cfg, board, m, p, d);
    }
    UtilityAlongFindsRun(cfg, board, m, p, DIRECTIONS);
  }

  /** compute_utility: k_in_row in the four directions, with Python's short-circuit `or`. */
  method ComputeUtility(cfg: Config, board: Board, m: Move, p: Player) returns (u: int)
    requires BoardShape(cfg, board)
    ensures u == MoveUtility(cfg, board, m, p)
  {
    var n := KInRow(cfg, board, m, p, (0, 1));
    var won := n >= cfg.k;
    if !won {
      n := KInRow(cfg, board, m, p, (1, 0));
      won := n >= cfg.k;
    }
    if !won {
      n := KInRow(cfg, board, m, p, (1, -1));
      won := n >= cfg.k;
    }
    if !won {
      n := KInRow(cfg, board, m, p, (1, 1));
      won := n >= cfg.k;
    }
    if won {
      u := if p == X then 1 else -1;
    } else {
      u := 0;
    }
    UtilityAlongFindsRun(cfg, board, m, p, DIRECTIONS);
  }

  // ---------------------------------------------------------------------------
  // Successor states: result

  /** Python's `list.remove`: drop the first occurrence of `x`, if there is one. */
  function RemoveFirst(xs: seq<Move>, x: Move): (r: seq<Move>)
    ensures x !in xs ==> r == xs
    ensures x in xs ==> |r| == |xs| - 1
    ensures forall i :: 0 <= i < |r| ==> r[i] in xs
  {
    if xs == [] then []
    else if xs[0] == x then xs[1..]
    else [xs[0]] + RemoveFirst(xs[1..], x)
  }

  /** The position of the first occurrence of `x` in `xs`. */
  function FirstIndex(xs: seq<Move>, x: Move): (i: nat)
    requires x in xs
    ensures i < |xs| && xs[i] == x
    ensures forall j :: 0 <= j < i ==> xs[j] != x
  {
    if xs[0] == x then 0 else 1 + FirstIndex(xs[1..], x)
  }

  /** RemoveFirst deletes exactly the first occurrence and keeps the order of the rest. */
  lemma {:induction false} RemoveFirstDropsFirst(xs: seq<Move>, x: Move, i: nat)
    requires i < |xs| && xs[i] == x
    requires forall j :: 0 <= j < i ==> xs[j] != x
    ensures RemoveFirst(xs, x) == xs[..i] + xs[i + 1..]
  {
    if i > 0 {
      var tail := xs[1..];
      assert forall j :: 0 <= j < i - 1 ==> tail[j] == xs[j + 1];
      RemoveFirstDropsFirst(tail, x, i - 1);
      calc {
        RemoveFirst(xs, x);
        [xs[0]] + RemoveFirst(tail, x);
        [xs[0]] + (tail[..i - 1] + tail[i..]);
        ([xs[0]] + tail[..i - 1]) + tail[i..];
        { assert [xs[0]] + tail[..i - 1] == xs[..i]; assert tail[i..] == xs[i + 1..]; }
        xs[..i] + xs[i + 1..];
      }
    }
  }

  function Place(board: Board, m: Move, c: Cell): Board
    requires 0 <= m.0 < |board| && 0 <= m.1 < |board[m.0]|
  {
    board[m.0 := board[m.0][m.1 := c]]
  }

  /** result's successor state: an illegal move gives back the same state; a legal
      one is a well-formed state with one move fewer (SuccessorOfLegalMove says which). */
  function Successor(cfg: Config, s: State, m: Move): (r: State)
    requires WellFormed(cfg, s)
    ensures WellFormed(cfg, r)
    ensures m !in s.moves ==> r == s
    ensures m in s.moves ==> |r.moves| == |s.moves| - 1
  {
    if m !in s.moves then s
    else
      var board := Place(s.board, m, Mark(s.toMove));
      State(Other(s.toMove), MoveUtility(cfg, board, m, s.toMove), board, RemoveFirst(s.moves, m))
  }

  /** A legal move puts the mover's mark on `m` and changes no other square, removes
      the first `m` and nothing else from the moves keeping their order, hands the
      turn over, and caches the utility of the move. */
  lemma SuccessorOfLegalMove(cfg: Config, s: State, m: Move)
    requires WellFormed(cfg, s) && m in s.moves
    ensures var r := Successor(cfg, s, m);
      && r.toMove == Other(s.toMove)
      && (forall c :: InBounds(cfg, c) ==>
            r.board[c.0][c.1] == if c == m then Mark(s.toMove) else s.board[c.0][c.1])
      && r.moves == s.moves[..FirstIndex(s.moves, m)] + s.moves[FirstIndex(s.moves, m) + 1..]
      && r.utility == MoveUtility(cfg, r.board, m, s.toMove)
  {
    RemoveFirstDropsFirst(s.moves, m, FirstIndex(s.moves, m));
  }

  lemma {:induction false} RemoveAtKeepsDistinct(ms: seq<Move>, i: int)
    requires Distinct(ms) && 0 <= i < |ms|
    ensures Distinct(ms[..i] + ms[i + 1..])
    ensures forall c :: c in ms[..i] + ms[i + 1..] <==> c in ms && c != ms[i]
  {
    var rest := ms[..i] + ms[i + 1..];
    forall a, b | 0 <= a < b < |rest|
      ensures rest[a] != rest[b]
    {
      var a' := if a < i then a else a + 1;
      var b' := if b < i then b else b + 1;
      assert rest[a] == ms[a'] && rest[b] == ms[b'];
    }
    forall c
      ensures c in rest <==> c in ms && c != ms[i]
    {
      if c in rest {
        var j :| 0 <= j < |rest| && rest[j] == c;
        var j' := if j < i then j else j + 1;
        assert ms[j'] == c && j' != i;
      }
      if c in ms && c != ms[i] {
        var j :| 0 <= j < |ms| && ms[j] == c;
        assert rest[if j < i then j else j - 1] == c;
      }
    }
  }

  /** result keeps the invariant: the moves stay distinct and stay the empty squares. */
  lemma SuccessorKeepsValid(cfg: Config, s: State, m: Move)
    requires ValidState(cfg, s)
    ensures ValidState(cfg, Successor(cfg, s, m))
    ensures m !in Successor(cfg, s, m).moves
  {
    if m in s.moves {
      var r := Successor(cfg, s, m);
      SuccessorOfLegalMove(cfg, s, m);
      RemoveAtKeepsDistinct(s.moves, FirstIndex(s.moves, m));
    }
  }

  /** result: copy the board, mark the square, remove the move from a copy of the
      list, and compute the new utility with k_in_row. */
  method Result(cfg: Config, s: State, m: Move) returns (r: State)
    requires WellFormed(cfg, s)
    ensures r == Successor(cfg, s, m)
  {
    if m !in s.moves {
      return s;
    }
    var board := s.board;
    board := board[m.0 := board[m.0][m.1 := Mark(s.toMove)]];
    var moves := RemoveFirst(s.moves, m);
    var u := ComputeUtility(cfg, board, m, s.toMove);
    r := State(Other(s.toMove), u, board, moves);
  }

  /** Win detection through result: the successor's utility is nonzero exactly when
      the mover has completed a line of k through the square just played. */
  lemma SuccessorDetectsWin(cfg: Config, s: State, m: Move)
    requires WellFormed(cfg, s) && cfg.k >= 1 && m in s.moves
    ensures var r := Successor(cfg, s, m);
            r.utility == if HasLineThrough(cfg, r.board, m, s.toMove) then Sign(s.toMove) else 0
  {
    var r := Successor(cfg, s, m);
    MoveUtilityDetectsLine(cfg, r.board, m, s.toMove);
  }

  // ---------------------------------------------------------------------------
  // actions, utility, terminal_test

  function Actions(s: State): seq<Move>
  {
    s.moves
  }

  /** The cached utility seen from `p`'s side: as stored for X, negated for O. */
  function Utility(s: State, p: Player): int
  {
    if p == X then s.utility else -s.utility
  }

  predicate TerminalTest(s: State)
  {
    s.utility != 0 || |s.moves| == 0
  }

  /** Zero-sum: the two players' utilities of a position are opposite. */
  lemma UtilityZeroSum(s: State, p: Player)
    ensures Utility(s, p) == -Utility(s, Other(p))
    ensures Utility(s, X) == -Utility(s, O)
  {
  }

  /** A state is terminal exactly when its cached utility is non-zero (the move that
      made it completed a line) or no square is empty. */
  lemma TerminalIffWonOrFull(cfg: Config, s: State)
    requires ValidState(cfg, s)
    ensures TerminalTest(s) <==> s.utility != 0 || forall c :: InBounds(cfg, c) ==> s.board[c.0][c.1] != Empty
  {
    if |s.moves| > 0 {
      assert InBounds(cfg, s.moves[0]) && s.moves[0] in s.moves;
    }
  }

  /** No action of a state is an occupied square, and every action leads to a state
      with one move fewer. */
  lemma ActionsAreLegal(cfg: Config, s: State, m: Move)
    requires ValidState(cfg, s) && m in Actions(s)
    ensures InBounds(cfg, m) && s.board[m.0][m.1] == Empty
    ensures |Successor(cfg, s, m).moves| < |s.moves|
  {
    var i :| 0 <= i < |s.moves| && s.moves[i] == m;
  }
}
