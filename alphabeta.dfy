/** `AIPlayer.get_alpha_beta_move` (Player.py:83-130): depth-limited minimax
    with alpha-beta pruning. `min_value` and `max_value` recurse on boards;
    their recursion is the game tree of `Search` (same leaf test, same
    replies in the same order), so the node values are functions on that
    tree, each loop over the replies a recursive helper carrying the loop
    variables. The root, which writes into one board copy, is a method over
    an array. */
module AlphaBeta {
  import opened Board
  import opened Legal
  import opened Runs
  import opened Evaluation
  import opened Results
  import opened Selection
  import opened Search

  function Max(x: int, y: int): (m: int)
    ensures m >= x && m >= y && (m == x || m == y)
  {
    if x >= y then x else y
  }

  /** `min_value` (Player.py:83-96) on the game tree below an opponent's
      node: a leaf's value, or the loop over the replies from the sentinel. */
  function MinValue(t: Tree, alpha: int, beta: int): (v: int)
    ensures t.Node? ==> v <= Infinity
    decreases t, 1
  {
    match t
    case Leaf(x) => x
    case Node(_) => MinLoop(t, 0, Infinity, alpha, beta)
  }

  /** The loop of `min_value` from reply `i` on, with running value `v` and
      window upper bound `beta`; it stops as soon as `v <= alpha`. */
  function MinLoop(t: Tree, i: int, v: int, alpha: int, beta: int): (r: int)
    requires t.Node? && 0 <= i <= |t.children|
    ensures r <= v
    decreases t, 0, |t.children| - i
  {
    if i == |t.children| then v
    else
      var v' := Min(v, MaxValue(t.children[i], alpha, beta));
      if v' <= alpha then v'
      else MinLoop(t, i + 1, v', alpha, Min(beta, v'))
  }

  /** `max_value` (Player.py:98-111) on the game tree below a player's node. */
  function MaxValue(t: Tree, alpha: int, beta: int): (v: int)
    ensures t.Node? ==> v >= -Infinity
    decreases t, 1
  {
    match t
    case Leaf(x) => x
    case Node(_) => MaxLoop(t, 0, -Infinity, alpha, beta)
  }

  /** The loop of `max_value` from reply `i` on; it stops as soon as
      `v >= beta`. */
  function MaxLoop(t: Tree, i: int, v: int, alpha: int, beta: int): (r: int)
    requires t.Node? && 0 <= i <= |t.children|
    ensures r >= v
    decreases t, 0, |t.children| - i
  {
    if i == |t.children| then v
    else
      var v' := Max(v, MinValue(t.children[i], alpha, beta));
      if v' >= beta then v'
      else MaxLoop(t, i + 1, v', Max(alpha, v'), beta)
  }

  /** A node that is not a leaf but has no legal move (a full board with no
      four in a line and at least 2 plies left) returns its starting
      sentinel, whatever the window. */
  lemma NoReplyIsSentinel(b: Grid, depth: int, player: int, opponent: int, alpha: int, beta: int)
    requires IsGrid(b) && IsFull(b) && !IsLeaf(b, depth, player, opponent)
    ensures MinValue(OpponentTree(b, depth, player, opponent), alpha, beta) == Infinity
    ensures MaxValue(PlayerTree(b, depth, player, opponent), alpha, beta) == -Infinity
  {
    assert |OpponentTree(b, depth, player, opponent).children| == 0;
    assert |PlayerTree(b, depth, player, opponent).children| == 0;
  }

  /** `min_value(board, alpha, beta, depth, ...)`: the value of the
      opponent's node on board `b`. */
  function MinNode(b: Grid, alpha: int, beta: int, depth: int, player: int, opponent: int): int
    requires IsGrid(b)
  {
    MinValue(OpponentTree(b, depth, player, opponent), alpha, beta)
  }

  /** `max_value(board, alpha, beta, depth, ...)`: the value of the
      player's node on board `b`. */
  function MaxNode(b: Grid, alpha: int, beta: int, depth: int, player: int, opponent: int): int
    requires IsGrid(b)
  {
    MaxValue(PlayerTree(b, depth, player, opponent), alpha, beta)
  }

  /** `min_value`'s loop from reply `i` on, on board `b`. */
  function MinFrom(b: Grid, i: int, v: int, alpha: int, beta: int, depth: int, player: int, opponent: int): int
    requires IsGrid(b) && !IsLeaf(b, depth, player, opponent) && 0 <= i <= |Moves(b)|
  {
    MinLoop(OpponentTree(b, depth, player, opponent), i, v, alpha, beta)
  }

  /** `max_value`'s loop from reply `i` on, on board `b`. */
  function MaxFrom(b: Grid, i: int, v: int, alpha: int, beta: int, depth: int, player: int, opponent: int): int
    requires IsGrid(b) && !IsLeaf(b, depth, player, opponent) && 0 <= i <= |Moves(b)|
  {
    MaxLoop(PlayerTree(b, depth, player, opponent), i, v, alpha, beta)
  }

  /** At a leaf both node values are `evaluation_function(board) * depth`. */
  lemma LeafNodes(b: Grid, alpha: int, beta: int, depth: int, player: int, opponent: int)
    requires IsGrid(b) && IsLeaf(b, depth, player, opponent)
    ensures MinNode(b, alpha, beta, depth, player, opponent) == Score(b, player) * depth
    ensures MaxNode(b, alpha, beta, depth, player, opponent) == Score(b, player) * depth
  {
  }

  /** At an inner node the loops start from the sentinels and end with `v`. */
  lemma InnerNodes(b: Grid, alpha: int, beta: int, depth: int, player: int, opponent: int, v: int)
    requires IsGrid(b) && !IsLeaf(b, depth, player, opponent)
    ensures MinNode(b, alpha, beta, depth, player, opponent) == MinFrom(b, 0, Infinity, alpha, beta, depth, player, opponent)
    ensures MaxNode(b, alpha, beta, depth, player, opponent) == MaxFrom(b, 0, -Infinity, alpha, beta, depth, player, opponent)
    ensures MinFrom(b, |Moves(b)|, v, alpha, beta, depth, player, opponent) == v
    ensures MaxFrom(b, |Moves(b)|, v, alpha, beta, depth, player, opponent) == v
  {
  }

  /** One turn of `min_value`'s loop, with `x` the value of reply `i`. */
  lemma MinFromStep(b: Grid, i: int, v: int, alpha: int, beta: int, depth: int, player: int, opponent: int, x: int)
    requires IsGrid(b) && !IsLeaf(b, depth, player, opponent) && 0 <= i < |Moves(b)|
    requires x == MaxNode(Place(b, Moves(b)[i], opponent), alpha, beta, depth - 1, player, opponent)
    ensures MinFrom(b, i, v, alpha, beta, depth, player, opponent)
         == if Min(v, x) <= alpha then Min(v, x)
            else MinFrom(b, i + 1, Min(v, x), alpha, Min(beta, Min(v, x)), depth, player, opponent)
  {
    OpponentChild(b, depth, player, opponent, i);
  }

  /** One turn of `max_value`'s loop, with `x` the value of reply `i`. */
  lemma MaxFromStep(b: Grid, i: int, v: int, alpha: int, beta: int, depth: int, player: int, opponent: int, x: int)
    requires IsGrid(b) && !IsLeaf(b, depth, player, opponent) && 0 <= i < |Moves(b)|
    requires x == MinNode(Place(b, Moves(b)[i], player), alpha, beta, depth - 1, player, opponent)
    ensures MaxFrom(b, i, v, alpha, beta, depth, player, opponent)
         == if Max(v, x) >= beta then Max(v, x)
            else MaxFrom(b, i + 1, Max(v, x), Max(alpha, Max(v, x)), beta, depth, player, opponent)
  {
    PlayerChild(b, depth, player, opponent, i);
  }

  /** The value of one opponent's reply: the opponent's piece is written
      into a fresh copy of the board, and `max_value` is searched one ply down. */
  method OpponentReply(board: array2<int>, m: Move, alpha: int, beta: int, depth: int, player: int, opponent: int)
    returns (result: int)
    requires board.Length0 == Rows && board.Length1 == Cols && InBounds(m) && depth > 1
    ensures result == MaxNode(Place(GridOf(board), m, opponent), alpha, beta, depth - 1, player, opponent)
    decreases depth, 0
  {
    var mockboard := PlayOnCopy(board, m, opponent);
    result := SearchMax(mockboard, alpha, beta, depth - 1, player, opponent);
  }

  /** The value of one of the player's replies, on its own copy. */
  method PlayerReply(board: array2<int>, m: Move, alpha: int, beta: int, depth: int, player: int, opponent: int)
    returns (result: int)
    requires board.Length0 == Rows && board.Length1 == Cols && InBounds(m) && depth > 1
    ensures result == MinNode(Place(GridOf(board), m, player), alpha, beta, depth - 1, player, opponent)
    decreases depth, 0
  {
    var mockboard := PlayOnCopy(board, m, player);
    result := SearchMin(mockboard, alpha, beta, depth - 1, player, opponent);
  }

  /** `min_value` (Player.py:83-96) on a board: the leaf rule, else a loop
      over the opponent's replies, each played on its own copy, that
      lowers `v` and `beta` and returns as soon as `v <= alpha`. */
  method SearchMin(board: array2<int>, alpha: int, beta: int, depth: int, player: int, opponent: int) returns (v: int)
    requires board.Length0 == Rows && board.Length1 == Cols
    ensures v == MinNode(GridOf(board), alpha, beta, depth, player, opponent)
    decreases depth, 1
  {
    var b := GridOf(board);
    var valid := ValidMoves(board);
    if depth <= 1 || CheckBoard(b, 4, player) || CheckBoard(b, 4, opponent) {
      var e := EvaluationFunction(board, player);
      LeafNodes(b, alpha, beta, depth, player, opponent);
      return e * depth;
    }
    InnerNodes(b, alpha, beta, depth, player, opponent, 0);
    v := Infinity;
    var beta' := beta;
    for i := 0 to |valid|
      invariant MinFrom(b, i, v, alpha, beta', depth, player, opponent) == MinNode(b, alpha, beta, depth, player, opponent)
    {
      var result := OpponentReply(board, valid[i], alpha, beta', depth, player, opponent);
      MinFromStep(b, i, v, alpha, beta', depth, player, opponent, result);
      v := Min(v, result);
      if v <= alpha {
        return v;
      }
      beta' := Min(beta', v);
    }
    InnerNodes(b, alpha, beta', depth, player, opponent, v);
  }

  /** `max_value` (Player.py:98-111) on a board: the player's replies raise
      `v` and `alpha`, and the loop returns as soon as `v >= beta`. */
  method SearchMax(board: array2<int>, alpha: int, beta: int, depth: int, player: int, opponent: int) returns (v: int)
    requires board.Length0 == Rows && board.Length1 == Cols
    ensures v == MaxNode(GridOf(board), alpha, beta, depth, player, opponent)
    decreases depth, 1
  {
    var b := GridOf(board);
    var valid := ValidMoves(board);
    if depth <= 1 || CheckBoard(b, 4, player) || CheckBoard(b, 4, opponent) {
      var e := EvaluationFunction(board, player);
      LeafNodes(b, alpha, beta, depth, player, opponent);
      return e * depth;
    }
    InnerNodes(b, alpha, beta, depth, player, opponent, 0);
    v := -Infinity;
    var alpha' := alpha;
    for i := 0 to |valid|
      invariant MaxFrom(b, i, v, alpha', beta, depth, player, opponent) == MaxNode(b, alpha, beta, depth, player, opponent)
    {
      var result := PlayerReply(board, valid[i], alpha', beta, depth, player, opponent);
      MaxFromStep(b, i, v, alpha', beta, depth, player, opponent, result);
      v := Max(v, result);
      if v >= beta {
        return v;
      }
      alpha' := Max(alpha', v);
    }
    InnerNodes(b, alpha', beta, depth, player, opponent, v);
  }

  // Reference: the same tree searched without pruning.

  /** Plain minimax value of an opponent's node: the least value of its
      children, or the sentinel when they are all above it or there are none. */
  function MinimaxMin(t: Tree): (v: int)
    ensures t.Node? ==> v <= Infinity
    decreases t, 1
  {
    match t
    case Leaf(x) => x
    case Node(_) => MinOfChildren(t, 0)
  }

  function MinOfChildren(t: Tree, i: int): (v: int)
    requires t.Node? && 0 <= i <= |t.children|
    ensures v <= Infinity
    decreases t, 0, |t.children| - i
  {
    if i == |t.children| then Infinity
    else Min(MinimaxMax(t.children[i]), MinOfChildren(t, i + 1))
  }

  /** Plain minimax value of a player's node: the greatest value of its
      children, or the sentinel. */
  function MinimaxMax(t: Tree): (v: int)
    ensures t.Node? ==> v >= -Infinity
    decreases t, 1
  {
    match t
    case Leaf(x) => x
    case Node(_) => MaxOfChildren(t, 0)
  }

  function MaxOfChildren(t: Tree, i: int): (v: int)
    requires t.Node? && 0 <= i <= |t.children|
    ensures v >= -Infinity
    decreases t, 0, |t.children| - i
  {
    if i == |t.children| then -Infinity
    else Max(MinimaxMin(t.children[i]), MaxOfChildren(t, i + 1))
  }

  lemma {:induction false} MinOfChildrenIsLeast(t: Tree, i: int)
    requires t.Node? && 0 <= i <= |t.children|
    ensures forall j :: i <= j < |t.children| ==> MinOfChildren(t, i) <= MinimaxMax(t.children[j])
    ensures MinOfChildren(t, i) == Infinity || exists j :: i <= j < |t.children| && MinOfChildren(t, i) == MinimaxMax(t.children[j])
    decreases |t.children| - i
  {
    if i < |t.children| {
      MinOfChildrenIsLeast(t, i + 1);
    }
  }

  /** The minimax value of an inner opponent's node is the least value of
      its children (the sentinel when it has none). */
  lemma MinimaxMinIsLeast(t: Tree)
    requires t.Node?
    ensures forall j :: 0 <= j < |t.children| ==> MinimaxMin(t) <= MinimaxMax(t.children[j])
    ensures MinimaxMin(t) == Infinity || exists j :: 0 <= j < |t.children| && MinimaxMin(t) == MinimaxMax(t.children[j])
  {
    MinOfChildrenIsLeast(t, 0);
  }

  lemma {:induction false} MaxOfChildrenIsGreatest(t: Tree, i: int)
    requires t.Node? && 0 <= i <= |t.children|
    ensures forall j :: i <= j < |t.children| ==> MaxOfChildren(t, i) >= MinimaxMin(t.children[j])
    ensures MaxOfChildren(t, i) == -Infinity || exists j :: i <= j < |t.children| && MaxOfChildren(t, i) == MinimaxMin(t.children[j])
    decreases |t.children| - i
  {
    if i < |t.children| {
      MaxOfChildrenIsGreatest(t, i + 1);
    }
  }

  /** The minimax value of an inner player's node is the greatest value of
      its children (the sentinel when it has none). */
  lemma MinimaxMaxIsGreatest(t: Tree)
    requires t.Node?
    ensures forall j :: 0 <= j < |t.children| ==> MinimaxMax(t) >= MinimaxMin(t.children[j])
    ensures MinimaxMax(t) == -Infinity || exists j :: 0 <= j < |t.children| && MinimaxMax(t) == MinimaxMin(t.children[j])
  {
    MaxOfChildrenIsGreatest(t, 0);
  }

  /** `x` cut to the window [lo, hi]. */
  function Clamp(x: int, lo: int, hi: int): int
  {
    if x < lo then lo else if x > hi then hi else x
  }

  /** Pruning is sound: inside the window (alpha, beta) the pruned value of
      a player's node is its minimax value, and outside it both lie on the
      same side of the window. */
  lemma {:induction false} MaxValueAgrees(t: Tree, alpha: int, beta: int)
    requires alpha < beta
    ensures Clamp(MaxValue(t, alpha, beta), alpha, beta) == Clamp(MinimaxMax(t), alpha, beta)
    decreases t, 1
  {
    if t.Node? {
      MaxLoopAgrees(t, 0, -Infinity, alpha, beta);
    }
  }

  lemma {:induction false} MaxLoopAgrees(t: Tree, i: int, v: int, alpha: int, beta: int)
    requires t.Node? && 0 <= i <= |t.children|
    requires alpha < beta && v >= -Infinity
    ensures Clamp(MaxLoop(t, i, v, alpha, beta), alpha, beta)
         == Clamp(Max(v, MaxOfChildren(t, i)), alpha, beta)
    decreases t, 0, |t.children| - i
  {
    if i < |t.children| {
      var child := t.children[i];
      MinValueAgrees(child, alpha, beta);
      var v' := Max(v, MinValue(child, alpha, beta));
      if v' < beta {
        MaxLoopAgrees(t, i + 1, v', Max(alpha, v'), beta);
      }
    }
  }

  /** Pruning is sound for the opponent's node. */
  lemma {:induction false} MinValueAgrees(t: Tree, alpha: int, beta: int)
    requires alpha < beta
    ensures Clamp(MinValue(t, alpha, beta), alpha, beta) == Clamp(MinimaxMin(t), alpha, beta)
    decreases t, 1
  {
    if t.Node? {
      MinLoopAgrees(t, 0, Infinity, alpha, beta);
    }
  }

  lemma {:induction false} MinLoopAgrees(t: Tree, i: int, v: int, alpha: int, beta: int)
    requires t.Node? && 0 <= i <= |t.children|
    requires alpha < beta && v <= Infinity
    ensures Clamp(MinLoop(t, i, v, alpha, beta), alpha, beta)
         == Clamp(Min(v, MinOfChildren(t, i)), alpha, beta)
    decreases t, 0, |t.children| - i
  {
    if i < |t.children| {
      var child := t.children[i];
      MaxValueAgrees(child, alpha, beta);
      var v' := Min(v, MaxValue(child, alpha, beta));
      if v' > alpha {
        MinLoopAgrees(t, i + 1, v', alpha, Min(beta, v'));
      }
    }
  }

  /** With the root's window (-1000000, 1000000) the value the root records
      for a branch, `max(alpha, min_value(...))`, is the branch's minimax
      value floored at the sentinel. */
  lemma RootValueAgrees(t: Tree)
    ensures Max(-Infinity, MinValue(t, -Infinity, Infinity)) == Max(-Infinity, MinimaxMin(t))
  {
    MinValueAgrees(t, -Infinity, Infinity);
  }

  /** What the root records for one branch: `max(alpha, min_value(...))`
      on the branch's board, one ply down. */
  function BranchValue(g: Grid, depth: int, alpha: int, beta: int, player: int, opponent: int): int
    requires IsGrid(g)
  {
    Max(alpha, MinNode(g, alpha, beta, depth - 1, player, opponent))
  }

  /** The value the root records for the board copy as it stands: the
      `min_value` one ply down, raised to at least `alpha`. */
  method RootBranch(mockboard: array2<int>, depth: int, alpha: int, beta: int, player: int, opponent: int)
    returns (value: int)
    requires mockboard.Length0 == Rows && mockboard.Length1 == Cols
    ensures value == BranchValue(GridOf(mockboard), depth, alpha, beta, player, opponent)
  {
    var minValue := SearchMin(mockboard, alpha, beta, depth - 1, player, opponent);
    value := Max(alpha, minValue);
  }

  /** The list `alpha_beta` builds (Player.py:113-119): for the k-th legal
      move, `max(alpha, min_value(...))` on the board with moves 0..k written
      in, paired with the move's column. */
  function AlphaBetaRootValues(b: Grid, depth: int, alpha: int, beta: int, player: int, opponent: int): (values: seq<Entry>)
    requires IsGrid(b)
    ensures RootEntries(b, values)
  {
    var moves := Moves(b);
    seq(|moves|, k requires 0 <= k < |moves| =>
      (BranchValue(RootBoard(b, k, player), depth, alpha, beta, player, opponent) as real, moves[k].col))
  }

  /** The same list with unpruned minimax values. */
  function MinimaxRootValues(b: Grid, depth: int, player: int, opponent: int): (values: seq<Entry>)
    requires IsGrid(b)
    ensures RootEntries(b, values)
  {
    var moves := Moves(b);
    seq(|moves|, k requires 0 <= k < |moves| =>
      (Max(-Infinity, MinimaxMin(OpponentTree(RootBoard(b, k, player), depth - 1, player, opponent))) as real, moves[k].col))
  }

  /** At the root's own window, pruning changes no recorded value. */
  lemma RootValuesAreMinimax(b: Grid, depth: int, player: int, opponent: int)
    requires IsGrid(b)
    ensures AlphaBetaRootValues(b, depth, -Infinity, Infinity, player, opponent)
         == MinimaxRootValues(b, depth, player, opponent)
  {
    var pruned := AlphaBetaRootValues(b, depth, -Infinity, Infinity, player, opponent);
    var plain := MinimaxRootValues(b, depth, player, opponent);
    forall k | 0 <= k < |pruned|
      ensures pruned[k] == plain[k]
    {
      RootValueAgrees(OpponentTree(RootBoard(b, k, player), depth - 1, player, opponent));
    }
  }

  /** Branch k's value and column extend the first k root entries to the
      first k + 1. */
  lemma RootEntryAppend(b: Grid, depth: int, alpha: int, beta: int, player: int, opponent: int,
                        k: int, values: seq<Entry>, value: int)
    requires IsGrid(b) && 0 <= k < |Moves(b)|
    requires values == AlphaBetaRootValues(b, depth, alpha, beta, player, opponent)[..k]
    requires value == BranchValue(RootBoard(b, k, player), depth, alpha, beta, player, opponent)
    ensures values + [(value as real, Moves(b)[k].col)] == AlphaBetaRootValues(b, depth, alpha, beta, player, opponent)[..k + 1]
  {
    var all := AlphaBetaRootValues(b, depth, alpha, beta, player, opponent);
    PrefixExtend(all, k);
    assert all[k] == (value as real, Moves(b)[k].col);
  }

  /** The body of the root loop: the player's piece is written into the
      shared copy, and the branch's value on it is appended with the column. */
  method RootStep(mockboard: array2<int>, m: Move, ghost b: Grid, ghost k: int,
                  depth: int, alpha: int, beta: int, player: int, opponent: int, values: seq<Entry>)
    returns (values': seq<Entry>)
    modifies mockboard
    requires mockboard.Length0 == Rows && mockboard.Length1 == Cols
    requires IsGrid(b) && 0 <= k < |Moves(b)| && m == Moves(b)[k]
    requires GridOf(mockboard) == PlaceAll(b, Moves(b)[..k], player)
    requires values == AlphaBetaRootValues(b, depth, alpha, beta, player, opponent)[..k]
    ensures GridOf(mockboard) == PlaceAll(b, Moves(b)[..k + 1], player)
    ensures values' == AlphaBetaRootValues(b, depth, alpha, beta, player, opponent)[..k + 1]
  {
    ghost var before := GridOf(mockboard);
    mockboard[m.row, m.col] := player;
    WriteIsPlace(before, GridOf(mockboard), m, player);
    RootBoardStep(b, k, player, before, GridOf(mockboard));
    var value := RootBranch(mockboard, depth, alpha, beta, player, opponent);
    RootEntryAppend(b, depth, alpha, beta, player, opponent, k, values, value);
    values' := values + [(value as real, m.col)];
  }

  /** `alpha_beta` (Player.py:113-126): one copy of the board receives the
      player's piece at every legal move in turn, each branch is valued on
      that copy, and the column is chosen by `Select`. */
  method AlphaBetaSearch(board: array2<int>, depth: int, alpha: int, beta: int, player: int, opponent: int)
    returns (r: Result<int>)
    requires board.Length0 == Rows && board.Length1 == Cols
    ensures r == Select(AlphaBetaRootValues(GridOf(board), depth, alpha, beta, player, opponent))
  {
    ghost var b := GridOf(board);
    ghost var all := AlphaBetaRootValues(b, depth, alpha, beta, player, opponent);
    var values: seq<Entry> := [];
    var mockboard := CopyBoard(board);
    var valid := ValidMoves(mockboard);
    assert valid[..0] == [] && all[..0] == [];
    for k := 0 to |valid|
      invariant GridOf(mockboard) == PlaceAll(b, valid[..k], player)
      invariant values == all[..k]
    {
      values := RootStep(mockboard, valid[k], b, k, depth, alpha, beta, player, opponent, values);
    }
    assert all[..|valid|] == all;
    r := SelectColumn(values);
  }

  /** `get_alpha_beta_move` (Player.py:127-130): depth 5 from the full
      window. The column is the one `Select` picks from the unpruned
      minimax values; it is a column with space, and the search fails
      (on the empty list) exactly when the board is full. */
  method GetAlphaBetaMove(board: array2<int>, playerNumber: int) returns (r: Result<int>)
    requires board.Length0 == Rows && board.Length1 == Cols
    ensures r == Select(MinimaxRootValues(GridOf(board), 5, playerNumber, Opponent(playerNumber)))
    ensures r.Err? <==> IsFull(GridOf(board))
    ensures r.Err? ==> r.error == EmptySequence
    ensures r.Ok? ==> 0 <= r.value < Cols && HasSpace(GridOf(board), r.value)
  {
    var opponent := Opponent(playerNumber);
    r := AlphaBetaSearch(board, 5, -Infinity, Infinity, playerNumber, opponent);
    RootValuesAreMinimax(GridOf(board), 5, playerNumber, opponent);
    RootChoiceIsLegal(GridOf(board), MinimaxRootValues(GridOf(board), 5, playerNumber, opponent));
  }

  /** What the alpha-beta root picks: `max` keyed on the column takes the
      LAST branch's value, and the scan returns the first column whose value
      — or whose column number — equals it. */
  lemma ChoiceAgainstLastColumn(b: Grid, depth: int, player: int, opponent: int)
    requires IsGrid(b) && !IsFull(b)
    ensures var values := MinimaxRootValues(b, depth, player, opponent);
      var last := values[|values| - 1].0;
      exists k :: 0 <= k < |values| && Select(values) == Ok(Moves(b)[k].col)
        && Matches(values[k], last) && forall j :: 0 <= j < k ==> !Matches(values[j], last)
  {
    SelectAgainstLastValue(MinimaxRootValues(b, depth, player, opponent));
  }
}
