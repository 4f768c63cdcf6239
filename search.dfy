/** What the two searches share: the leaf rule of every node
    (Player.py:85-86, 100-101, 176-177, 189-190) and the shape of the two
    roots (Player.py:113-126, 156-172), which copy the board once and drop
    the player's piece into that one copy column after column. */
module Search {
  import opened Board
  import opened Legal
  import opened Runs
  import opened Evaluation
  import opened Results
  import opened Selection

  /** The sentinel the nodes start from: a minimising node starts at
      `Infinity`, a maximising one at `-Infinity`. */
  const Infinity: int := 1000000

  /** A node is a leaf when the depth budget is spent or either side already
      has four in a line. */
  predicate IsLeaf(b: Grid, depth: int, player: int, opponent: int)
    requires IsGrid(b)
  {
    depth <= 1 || CheckBoard(b, 4, player) || CheckBoard(b, 4, opponent)
  }

  /** `self.evaluation_function(board) * depth`: the evaluation, scaled by
      the remaining depth. */
  function LeafValue(b: Grid, depth: int, player: int): int
    requires IsGrid(b)
  {
    Score(b, player) * depth
  }

  /** The game tree both searches walk: a leaf carries `LeafValue`; an
      inner node has one child per legal move, in `validMoves` order, on the
      board with that move played. In a player's node the player moves. */
  datatype Tree = Leaf(value: int) | Node(children: seq<Tree>)

  function PlayerTree(b: Grid, depth: int, player: int, opponent: int): (t: Tree)
    requires IsGrid(b)
    ensures t.Leaf? <==> IsLeaf(b, depth, player, opponent)
    ensures t.Leaf? ==> t.value == LeafValue(b, depth, player)
    ensures t.Node? ==> |t.children| == |Moves(b)|
    decreases depth
  {
    if IsLeaf(b, depth, player, opponent) then Leaf(LeafValue(b, depth, player))
    else
      var moves := Moves(b);
      Node(seq(|moves|, k requires 0 <= k < |moves| => OpponentTree(Place(b, moves[k], player), depth - 1, player, opponent)))
  }

  /** In an opponent's node the opponent moves. */
  function OpponentTree(b: Grid, depth: int, player: int, opponent: int): (t: Tree)
    requires IsGrid(b)
    ensures t.Leaf? <==> IsLeaf(b, depth, player, opponent)
    ensures t.Leaf? ==> t.value == LeafValue(b, depth, player)
    ensures t.Node? ==> |t.children| == |Moves(b)|
    decreases depth
  {
    if IsLeaf(b, depth, player, opponent) then Leaf(LeafValue(b, depth, player))
    else
      var moves := Moves(b);
      Node(seq(|moves|, k requires 0 <= k < |moves| => PlayerTree(Place(b, moves[k], opponent), depth - 1, player, opponent)))
  }

  /** Reply `k` of an inner player's node is the opponent's node on the
      board with the player's piece in the k-th landing cell. */
  lemma PlayerChild(b: Grid, depth: int, player: int, opponent: int, k: int)
    requires IsGrid(b) && !IsLeaf(b, depth, player, opponent) && 0 <= k < |Moves(b)|
    ensures PlayerTree(b, depth, player, opponent).Node?
    ensures PlayerTree(b, depth, player, opponent).children[k]
         == OpponentTree(Place(b, Moves(b)[k], player), depth - 1, player, opponent)
  {
  }

  /** Reply `k` of an inner opponent's node is the player's node on the
      board with the opponent's piece in the k-th landing cell. */
  lemma OpponentChild(b: Grid, depth: int, player: int, opponent: int, k: int)
    requires IsGrid(b) && !IsLeaf(b, depth, player, opponent) && 0 <= k < |Moves(b)|
    ensures OpponentTree(b, depth, player, opponent).Node?
    ensures OpponentTree(b, depth, player, opponent).children[k]
         == PlayerTree(Place(b, Moves(b)[k], opponent), depth - 1, player, opponent)
  {
  }

  /** A fresh copy of the board with mark `x` written at reply `m`. */
  method PlayOnCopy(board: array2<int>, m: Move, x: int) returns (mockboard: array2<int>)
    requires board.Length0 == Rows && board.Length1 == Cols && InBounds(m)
    ensures fresh(mockboard) && mockboard.Length0 == Rows && mockboard.Length1 == Cols
    ensures GridOf(mockboard) == Place(GridOf(board), m, x)
  {
    mockboard := CopyBoard(board);
    ghost var before := GridOf(mockboard);
    mockboard[m.row, m.col] := x;
    WriteIsPlace(before, GridOf(mockboard), m, x);
  }

  /** The board root branch `k` is searched on: the copy after the player's
      piece was written into the landing cells of moves 0..k. */
  function RootBoard(b: Grid, k: int, player: int): (b': Grid)
    requires IsGrid(b) && 0 <= k < |Moves(b)|
    ensures IsGrid(b')
  {
    PlaceAll(b, Moves(b)[..k + 1], player)
  }

  /** Writing the k-th move's cell into the root copy yields branch k's board. */
  lemma RootBoardStep(b: Grid, k: int, player: int, before: Grid, after: Grid)
    requires IsGrid(b) && 0 <= k < |Moves(b)|
    requires before == PlaceAll(b, Moves(b)[..k], player)
    requires after == Place(before, Moves(b)[k], player)
    ensures after == RootBoard(b, k, player) == PlaceAll(b, Moves(b)[..k + 1], player)
  {
    assert Moves(b)[..k + 1][..k] == Moves(b)[..k];
  }

  /** Root branches are not independent: branch `k` still carries the
      pieces written for every earlier branch, so from the second legal
      column on it differs from the board with only its own move played. */
  lemma RootBoardsAccumulate(b: Grid, k: int, player: int)
    requires IsGrid(b) && 0 <= k < |Moves(b)| && player != 0
    ensures forall j :: 0 <= j <= k ==> RootBoard(b, k, player)[Moves(b)[j].row][Moves(b)[j].col] == player
    ensures k >= 1 ==> RootBoard(b, k, player) != Place(b, Moves(b)[k], player)
  {
    var moves := Moves(b);
    var prefix := moves[..k + 1];
    PlaceAllCells(b, prefix, player);
    assert forall j :: 0 <= j <= k ==> prefix[j] == moves[j];
    if k >= 1 {
      var m := moves[0];
      assert m.col < moves[k].col;
      assert RootBoard(b, k, player)[m.row][m.col] == player;
      assert Place(b, moves[k], player)[m.row][m.col] == 0;
    }
  }

  /** The first k + 1 entries of a list are its first k and then entry k. */
  lemma PrefixExtend<T>(s: seq<T>, k: int)
    requires 0 <= k < |s|
    ensures s[..k + 1] == s[..k] + [s[k]]
  {
    assert s[..k + 1] == s[..k] + [s[k]];
  }

  /** The root's list pairs each legal move's column with some value. */
  predicate RootEntries(b: Grid, values: seq<Entry>)
    requires IsGrid(b)
  {
    |values| == |Moves(b)| && forall k :: 0 <= k < |values| ==> values[k].1 == Moves(b)[k].col
  }

  /** A root's answer is a column with space, and its only failure on such
      a list is the empty list of a full board. */
  lemma RootChoiceIsLegal(b: Grid, values: seq<Entry>)
    requires IsGrid(b) && RootEntries(b, values)
    ensures Select(values).Err? <==> IsFull(b)
    ensures Select(values).Err? ==> Select(values).error == EmptySequence
    ensures Select(values).Ok? ==> 0 <= Select(values).value < Cols && HasSpace(b, Select(values).value)
  {
    if |values| > 0 {
      SelectFirstMatch(values);
      var k :| 0 <= k < |values| && Select(values) == Ok(values[k].1);
      assert IsLanding(b, Moves(b)[k]);
    }
  }
}
