/** The legal-move enumerator (`AIPlayer.validMoves`) and the random
    player's column filter. */
module Legal {
  import opened Board

  /** The cell a piece dropped in column `c` comes to rest on: the lowest
      (highest-numbered) empty row, scanning upwards from row `r`; -1 when
      rows 0..r of the column are all occupied. */
  function LandingFrom(b: Grid, c: int, r: int): (row: int)
    requires IsGrid(b) && 0 <= c < Cols && -1 <= r < Rows
    ensures -1 <= row <= r
    ensures row >= 0 ==> b[row][c] == 0 && forall r' :: row < r' <= r ==> b[r'][c] != 0
    ensures row == -1 <==> forall r' :: 0 <= r' <= r ==> b[r'][c] != 0
    decreases r
  {
    if r < 0 then -1 else if b[r][c] == 0 then r else LandingFrom(b, c, r - 1)
  }

  function LandingRow(b: Grid, c: int): (row: int)
    requires IsGrid(b) && 0 <= c < Cols
    ensures row >= 0 <==> HasSpace(b, c)
  {
    LandingFrom(b, c, Rows - 1)
  }

  /** The landing cell of its column: empty, with only occupied cells below it. */
  predicate IsLanding(b: Grid, m: Move)
    requires IsGrid(b)
  {
    InBounds(m) && b[m.row][m.col] == 0 && forall r :: m.row < r < Rows ==> b[r][m.col] != 0
  }

  /** The moves `validMoves` has collected after scanning columns 0..n-1. */
  function MovesBefore(b: Grid, n: int): (moves: seq<Move>)
    requires IsGrid(b) && 0 <= n <= Cols
    ensures forall k :: 0 <= k < |moves| ==> IsLanding(b, moves[k]) && moves[k].col < n
    ensures forall k, l :: 0 <= k < l < |moves| ==> moves[k].col < moves[l].col
  {
    if n == 0 then []
    else
      var c := n - 1;
      var row := LandingRow(b, c);
      MovesBefore(b, c) + if row >= 0 then [Move(row, c)] else []
  }

  predicate ListsColumn(moves: seq<Move>, c: int) {
    exists k :: 0 <= k < |moves| && moves[k].col == c
  }

  /** Only columns with space are listed: a listed move is a landing cell. */
  lemma ListedColumnHasSpace(b: Grid, moves: seq<Move>, c: int)
    requires IsGrid(b) && 0 <= c < Cols && ListsColumn(moves, c)
    requires forall k :: 0 <= k < |moves| ==> IsLanding(b, moves[k])
    ensures HasSpace(b, c)
  {
    var k :| 0 <= k < |moves| && moves[k].col == c;
    assert b[moves[k].row][c] == 0;
  }

  /** Every column below `n` with space is listed once columns 0..n-1 have
      been scanned. */
  lemma {:induction false} SpaceIsListed(b: Grid, n: int, c: int)
    requires IsGrid(b) && 0 <= c < n <= Cols && HasSpace(b, c)
    ensures ListsColumn(MovesBefore(b, n), c)
  {
    var prev := MovesBefore(b, n - 1);
    var moves := MovesBefore(b, n);
    if c < n - 1 {
      SpaceIsListed(b, n - 1, c);
      var k :| 0 <= k < |prev| && prev[k].col == c;
      assert moves[k] == prev[k];
    } else {
      assert moves[|prev|].col == c;
    }
  }

  /** A column is listed exactly when it has space. */
  lemma ColumnListed(b: Grid, c: int)
    requires IsGrid(b) && 0 <= c < Cols
    ensures HasSpace(b, c) <==> ListsColumn(MovesBefore(b, Cols), c)
  {
    if HasSpace(b, c) {
      SpaceIsListed(b, Cols, c);
    }
    if ListsColumn(MovesBefore(b, Cols), c) {
      ListedColumnHasSpace(b, MovesBefore(b, Cols), c);
    }
  }

  /** A listed move is an empty cell, so the board is not full. */
  lemma ListedMeansNotFull(b: Grid)
    requires IsGrid(b) && MovesBefore(b, Cols) != []
    ensures !IsFull(b)
  {
    var m := MovesBefore(b, Cols)[0];
    assert b[m.row][m.col] == 0;
  }

  /** An empty cell anywhere puts its column on the list. */
  lemma EmptyCellListsSomething(b: Grid, r: int, c: int)
    requires IsGrid(b) && 0 <= r < Rows && 0 <= c < Cols && b[r][c] == 0
    ensures MovesBefore(b, Cols) != []
  {
    assert HasSpace(b, c);
    ColumnListed(b, c);
  }

  /** Nothing is listed exactly when the board is full. */
  lemma NothingListedWhenFull(b: Grid)
    requires IsGrid(b)
    ensures MovesBefore(b, Cols) == [] <==> IsFull(b)
  {
    if IsFull(b) {
      if MovesBefore(b, Cols) != [] {
        ListedMeansNotFull(b);
        assert false;
      }
    } else {
      var r, c :| 0 <= r < Rows && 0 <= c < Cols && b[r][c] == 0;
      EmptyCellListsSomething(b, r, c);
    }
  }

  /** `validMoves(board)`: one landing cell per column that has space, in
      increasing column order. */
  function Moves(b: Grid): (moves: seq<Move>)
    requires IsGrid(b)
    ensures forall k :: 0 <= k < |moves| ==> IsLanding(b, moves[k])
    ensures forall k, l :: 0 <= k < l < |moves| ==> moves[k].col < moves[l].col
    ensures forall c :: 0 <= c < Cols ==> (HasSpace(b, c) <==> ListsColumn(moves, c))
    ensures moves == [] <==> IsFull(b)
  {
    assert forall c :: 0 <= c < Cols ==> (HasSpace(b, c) <==> ListsColumn(MovesBefore(b, Cols), c)) by {
      forall c | 0 <= c < Cols {
        ColumnListed(b, c);
      }
    }
    NothingListedWhenFull(b);
    MovesBefore(b, Cols)
  }

  /** When column 0 has space, the first move listed is in column 0. */
  lemma FirstMoveIsColumnZero(b: Grid)
    requires IsGrid(b) && HasSpace(b, 0)
    ensures |Moves(b)| > 0 && Moves(b)[0].col == 0
  {
    var moves := Moves(b);
    assert ListsColumn(moves, 0);
    var i :| 0 <= i < |moves| && moves[i].col == 0;
    assert IsLanding(b, moves[0]);
  }

  /** At most one move per column, hence at most seven. */
  lemma {:induction false} MovesAtMostSeven(b: Grid, n: int)
    requires IsGrid(b) && 0 <= n <= Cols
    ensures |MovesBefore(b, n)| <= n
  {
    if n > 0 {
      MovesAtMostSeven(b, n - 1);
    }
  }

  /** The columns of a list of moves, in order. */
  function Columns(moves: seq<Move>): (cols: seq<int>)
    ensures |cols| == |moves|
    ensures forall k :: 0 <= k < |moves| ==> cols[k] == moves[k].col
  {
    seq(|moves|, k requires 0 <= k < |moves| => moves[k].col)
  }

  /** `validMoves` (Player.py:10-17): for each column, scan rows 5..0 and
      record the first empty cell found. */
  method ValidMoves(board: array2<int>) returns (moves: seq<Move>)
    requires board.Length0 == Rows && board.Length1 == Cols
    ensures moves == Moves(GridOf(board))
  {
    ghost var b := GridOf(board);
    moves := [];
    for col := 0 to Cols
      invariant moves == MovesBefore(b, col)
    {
      var row := Rows - 1;
      while row >= 0
        invariant -1 <= row < Rows
        invariant LandingFrom(b, col, row) == LandingRow(b, col)
      {
        if board[row, col] == 0 {
          moves := moves + [Move(row, col)];
          break;
        }
        row := row - 1;
      }
    }
  }

  /** The random player's candidate columns (Player.py:267-270): every
      column holding a 0. They are exactly the columns of `validMoves`, in
      the same order. */
  method CandidateColumns(board: array2<int>) returns (cols: seq<int>)
    requires board.Length0 == Rows && board.Length1 == Cols
    ensures cols == Columns(Moves(GridOf(board)))
  {
    var b := GridOf(board);
    cols := [];
    for col := 0 to Cols
      invariant cols == Columns(MovesBefore(b, col))
    {
      if HasSpace(b, col) {
        cols := cols + [col];
      }
    }
  }

  /** The candidate columns are exactly the columns with an empty cell. */
  lemma ColumnsOfMoves(b: Grid)
    requires IsGrid(b)
    ensures forall c :: c in Columns(Moves(b)) <==> 0 <= c < Cols && HasSpace(b, c)
  {
    var moves := Moves(b);
    forall c
      ensures c in Columns(moves) <==> 0 <= c < Cols && HasSpace(b, c)
    {
      if c in Columns(moves) {
        var k :| 0 <= k < |moves| && Columns(moves)[k] == c;
        assert IsLanding(b, moves[k]);
      }
      if 0 <= c < Cols && HasSpace(b, c) {
        assert ListsColumn(moves, c);
        var k :| 0 <= k < |moves| && moves[k].col == c;
        assert Columns(moves)[k] == c;
      }
    }
  }
}
