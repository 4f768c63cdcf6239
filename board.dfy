/** The 6 x 7 board the players pass around: row 0 is the top row (filled
    last), row 5 the bottom; a cell holds 0 (empty) or a player number. */
module Board {

  const Rows: int := 6
  const Cols: int := 7

  type Grid = seq<seq<int>>

  /** The board's shape; every operation of the engine indexes 6 rows of 7 cells. */
  predicate IsGrid(b: Grid) {
    |b| == Rows && forall r :: 0 <= r < Rows ==> |b[r]| == Cols
  }

  /** A board whose cells are encoded as the game encodes them: 0, 1 or 2. */
  predicate IsBoard(b: Grid) {
    IsGrid(b) && forall r, c :: 0 <= r < Rows && 0 <= c < Cols ==> 0 <= b[r][c] <= 2
  }

  /** A `(row, col)` pair: the cell where a dropped piece lands. */
  datatype Move = Move(row: int, col: int)

  predicate InBounds(m: Move) {
    0 <= m.row < Rows && 0 <= m.col < Cols
  }

  /** `0 in board[:, col]`: the column still has an empty cell. */
  predicate HasSpace(b: Grid, col: int)
    requires IsGrid(b) && 0 <= col < Cols
  {
    exists r :: 0 <= r < Rows && b[r][col] == 0
  }

  predicate IsFull(b: Grid)
    requires IsGrid(b)
  {
    forall r, c :: 0 <= r < Rows && 0 <= c < Cols ==> b[r][c] != 0
  }

  /** `mockboard[row][col] = x` on a private copy: exactly one cell changes. */
  function Place(b: Grid, m: Move, x: int): (b': Grid)
    requires IsGrid(b) && InBounds(m)
    ensures IsGrid(b')
    ensures b'[m.row][m.col] == x
  {
    b[m.row := b[m.row][m.col := x]]
  }

  /** The board after writing `x` into the cells of `moves`, one after another. */
  function PlaceAll(b: Grid, moves: seq<Move>, x: int): (b': Grid)
    requires IsGrid(b)
    requires forall k :: 0 <= k < |moves| ==> InBounds(moves[k])
    ensures IsGrid(b')
  {
    if moves == [] then b else Place(PlaceAll(b, moves[..|moves| - 1], x), moves[|moves| - 1], x)
  }

  /** Every cell of `moves` holds `x` afterwards; every other cell is as it was. */
  lemma {:induction false} PlaceAllCells(b: Grid, moves: seq<Move>, x: int)
    requires IsGrid(b)
    requires forall k :: 0 <= k < |moves| ==> InBounds(moves[k])
    ensures forall k :: 0 <= k < |moves| ==> PlaceAll(b, moves, x)[moves[k].row][moves[k].col] == x
    ensures forall r, c :: 0 <= r < Rows && 0 <= c < Cols && (forall k :: 0 <= k < |moves| ==> moves[k] != Move(r, c))
              ==> PlaceAll(b, moves, x)[r][c] == b[r][c]
  {
    if moves != [] {
      var init := moves[..|moves| - 1];
      PlaceAllCells(b, init, x);
      forall k | 0 <= k < |moves|
        ensures PlaceAll(b, moves, x)[moves[k].row][moves[k].col] == x
      {
        if k < |moves| - 1 {
          assert moves[k] == init[k];
        }
      }
      forall r, c | 0 <= r < Rows && 0 <= c < Cols && (forall k :: 0 <= k < |moves| ==> moves[k] != Move(r, c))
        ensures PlaceAll(b, moves, x)[r][c] == b[r][c]
      {
        assert forall k :: 0 <= k < |init| ==> init[k] == moves[k];
        assert moves[|moves| - 1] != Move(r, c);
      }
    }
  }

  /** The contents of a numpy-style board as a value. */
  function GridOf(a: array2<int>): (b: Grid)
    reads a
    requires a.Length0 == Rows && a.Length1 == Cols
    ensures IsGrid(b)
    ensures forall r, c :: 0 <= r < Rows && 0 <= c < Cols ==> b[r][c] == a[r, c]
  {
    seq(Rows, r requires 0 <= r < Rows reads a => seq(Cols, c requires 0 <= c < Cols reads a => a[r, c]))
  }

  /** Two grids that agree cell by cell are the same grid. */
  lemma GridExtensionality(b: Grid, b': Grid)
    requires IsGrid(b) && IsGrid(b')
    requires forall r, c :: 0 <= r < Rows && 0 <= c < Cols ==> b[r][c] == b'[r][c]
    ensures b == b'
  {
    forall r | 0 <= r < Rows
      ensures b[r] == b'[r]
    {
    }
  }

  /** `np.copy(board)`: a fresh array with the same contents. */
  method CopyBoard(board: array2<int>) returns (copy: array2<int>)
    requires board.Length0 == Rows && board.Length1 == Cols
    ensures fresh(copy)
    ensures copy.Length0 == Rows && copy.Length1 == Cols
    ensures GridOf(copy) == GridOf(board)
  {
    copy := new int[Rows, Cols]((r, c) reads board requires 0 <= r < Rows && 0 <= c < Cols => board[r, c]);
    GridExtensionality(GridOf(copy), GridOf(board));
  }

  /** Writing one cell of an array board is `Place` on its contents. */
  lemma WriteIsPlace(before: Grid, after: Grid, m: Move, x: int)
    requires IsGrid(before) && IsGrid(after) && InBounds(m)
    requires after[m.row][m.col] == x
    requires forall r, c :: 0 <= r < Rows && 0 <= c < Cols && (r != m.row || c != m.col) ==> after[r][c] == before[r][c]
    ensures after == Place(before, m, x)
  {
    GridExtensionality(after, Place(before, m, x));
  }
}
