/** The run detector `AIPlayer.checkBoard` (Player.py:25-60).

    The source turns every line of the board into a string of digits and
    looks for a pattern string in it. The pattern for a run of `num` pieces
    is `('{0}' * num).format(player)` with `'{0}' * (4 - num)` appended
    AFTER the formatting, so for `num < 4` the pattern keeps literal `{0}`
    placeholders and can never occur in a string of digits. The model keeps
    that construction, and proves both consequences: runs of 2 and 3 are
    never found, and a run of 4 is found exactly when the player has four
    in a line somewhere on the board. */
module Runs {
  import opened Board
  import opened Text

  function Min(x: int, y: int): int {
    if x < y then x else y
  }

  /** Column `c`, top to bottom: row `c` of `b.T`. */
  function Column(b: Grid, c: int): (line: seq<int>)
    requires IsGrid(b) && 0 <= c < Cols
    ensures |line| == Rows
  {
    seq(Rows, r requires 0 <= r < Rows => b[r][c])
  }

  /** Cell r of column c is b[r][c]. */
  lemma ColumnCells(b: Grid, c: int)
    requires IsGrid(b) && 0 <= c < Cols
    ensures forall r :: 0 <= r < Rows ==> Column(b, c)[r] == b[r][c]
  {
  }

  /** `b.T`: the columns as rows. */
  function Transpose(b: Grid): (t: seq<seq<int>>)
    requires IsGrid(b)
    ensures |t| == Cols
  {
    seq(Cols, c requires 0 <= c < Cols => Column(b, c))
  }

  /** Row c of the transpose is column c. */
  lemma TransposeRows(b: Grid)
    requires IsGrid(b)
    ensures forall c :: 0 <= c < Cols ==> Transpose(b)[c] == Column(b, c)
  {
  }

  /** `np.fliplr(b)`: the board mirrored left to right. */
  function Mirror(b: Grid): (m: Grid)
    requires IsGrid(b)
    ensures IsGrid(m)
  {
    seq(Rows, r requires 0 <= r < Rows => seq(Cols, c requires 0 <= c < Cols => b[r][Cols - 1 - c]))
  }

  /** The mirror reads each row right to left. */
  lemma MirrorCells(b: Grid)
    requires IsGrid(b)
    ensures forall r, c :: 0 <= r < Rows && 0 <= c < Cols ==> Mirror(b)[r][c] == b[r][Cols - 1 - c]
  {
  }

  /** Number of cells on the diagonal at offset `k` of a 6 x 7 board. */
  function DiagonalLength(k: int): nat {
    if k >= 0 then (if k >= Cols then 0 else Min(Rows, Cols - k))
    else (if -k >= Rows then 0 else Min(Rows + k, Cols))
  }

  /** `np.diagonal(b, offset=k)`: the cells (i, i + k) for k >= 0 and
      (i - k, i) for k < 0, from the top down. */
  function Diagonal(b: Grid, k: int): (d: seq<int>)
    requires IsGrid(b)
    ensures |d| == DiagonalLength(k)
  {
    var n := DiagonalLength(k);
    if k >= 0 then seq(n, i requires 0 <= i < n => b[i][i + k])
    else seq(n, i requires 0 <= i < n => b[i - k][i])
  }

  /** The cells a diagonal reads, above and below the main one. */
  lemma DiagonalCells(b: Grid, k: int)
    requires IsGrid(b)
    ensures k >= 0 ==> forall i :: 0 <= i < |Diagonal(b, k)| ==> Diagonal(b, k)[i] == b[i][i + k]
    ensures k < 0 ==> forall i :: 0 <= i < |Diagonal(b, k)| ==> Diagonal(b, k)[i] == b[i - k][i]
  {
  }

  /** Python's `'s' * n` for a count that may be negative. */
  function NonNeg(x: int): nat {
    if x < 0 then 0 else x
  }

  /** The search string (Player.py:26-29): `num` copies of `str(player)`
      (`.format` fills every `{0}` present at that point), then
      `4 - num` copies of the unformatted placeholder `{0}`. */
  function RunPattern(num: int, player: int): string {
    Repeat(IntToString(player), NonNeg(num)) + Repeat("{0}", NonNeg(4 - num))
  }

  /** `pattern in to_str(line)`. */
  predicate LineMatches(line: seq<int>, pattern: string) {
    Contains(ToStr(line), pattern)
  }

  /** `check_horizontal`: some row of `lines` contains the pattern. */
  predicate CheckHorizontal(lines: seq<seq<int>>, pattern: string) {
    exists r :: 0 <= r < |lines| && LineMatches(lines[r], pattern)
  }

  /** `check_vertical`: `check_horizontal` of the transpose. */
  predicate CheckVertical(b: Grid, pattern: string)
    requires IsGrid(b)
  {
    CheckHorizontal(Transpose(b), pattern)
  }

  /** The inner loop of `check_diagonal`: offsets `i` and `-i`. */
  predicate OffsetPairMatches(ob: Grid, i: int, pattern: string)
    requires IsGrid(ob)
  {
    LineMatches(Diagonal(ob, i), pattern) || LineMatches(Diagonal(ob, -i), pattern)
  }

  /** One pass of `check_diagonal`'s outer loop: the main diagonal of `ob`,
      then offsets i and -i for i in `range(1, 7 - 3)`. */
  predicate DiagonalsMatch(ob: Grid, pattern: string)
    requires IsGrid(ob)
  {
    LineMatches(Diagonal(ob, 0), pattern) || exists i :: 1 <= i < Cols - 3 && OffsetPairMatches(ob, i, pattern)
  }

  /** `check_diagonal`: the board as it is, then mirrored. */
  predicate CheckDiagonal(b: Grid, pattern: string)
    requires IsGrid(b)
  {
    DiagonalsMatch(b, pattern) || DiagonalsMatch(Mirror(b), pattern)
  }

  /** `checkBoard(board, num, player_num)`. */
  predicate CheckBoard(b: Grid, num: int, player: int)
    requires IsGrid(b)
  {
    var pattern := RunPattern(num, player);
    CheckHorizontal(b, pattern) || CheckVertical(b, pattern) || CheckDiagonal(b, pattern)
  }

  /** The diagonal at offset -3 has only three cells, so on a board of
      single-digit cells it can never hold the four-character pattern. */
  lemma ShortDiagonalNeverMatches(b: Grid, player: int)
    requires IsBoard(b)
    ensures |Diagonal(b, -3)| == 3
    ensures !LineMatches(Diagonal(b, -3), RunPattern(4, player))
  {
    var d := Diagonal(b, -3);
    ToStrDigits(d);
    RepeatFour(IntToString(player));
    assert |RunPattern(4, player)| >= 4;
  }

  /** For every run length below 4 the detector answers false, whatever the
      board holds: the pattern contains `{`, and the text of a line holds
      only digits and minus signs. */
  lemma ShortRunsNeverMatch(b: Grid, num: int, player: int)
    requires IsGrid(b) && num < 4
    ensures !CheckBoard(b, num, player)
  {
    var prefix := Repeat(IntToString(player), NonNeg(num));
    var pattern := RunPattern(num, player);
    assert pattern[|prefix|] == '{';
    forall line: seq<int>
      ensures !LineMatches(line, pattern)
    {
      ToStrNumerals(line);
      AbsentCharBlocksMatch(ToStr(line), pattern, |prefix|);
    }
    assert !CheckHorizontal(b, pattern);
    assert !CheckVertical(b, pattern);
    assert !DiagonalsMatch(b, pattern);
    assert !DiagonalsMatch(Mirror(b), pattern);
  }

  // ---------------------------------------------------------------------
  // Four in a line, stated on cells

  /** Four consecutive cells of `line`, starting at `i`, hold `p`. */
  ghost predicate FourAt(line: seq<int>, p: int, i: int) {
    0 <= i && i + 4 <= |line| && line[i] == p && line[i + 1] == p && line[i + 2] == p && line[i + 3] == p
  }

  ghost predicate HasRunOfFour(line: seq<int>, p: int) {
    exists i :: FourAt(line, p, i)
  }

  ghost predicate Owns(b: Grid, p: int, r: int, c: int)
    requires IsGrid(b)
  {
    0 <= r < Rows && 0 <= c < Cols && b[r][c] == p
  }

  /** The four cells from (r, c) in direction (dr, dc) all hold `p`. */
  ghost predicate FourFrom(b: Grid, p: int, r: int, c: int, dr: int, dc: int)
    requires IsGrid(b)
  {
    Owns(b, p, r, c) && Owns(b, p, r + dr, c + dc) && Owns(b, p, r + 2 * dr, c + 2 * dc) && Owns(b, p, r + 3 * dr, c + 3 * dc)
  }

  /** Connect four: `p` holds four cells in a row, a column, a down-right
      diagonal or a down-left diagonal. */
  ghost predicate HasFour(b: Grid, p: int)
    requires IsGrid(b)
  {
    exists r, c :: FourFrom(b, p, r, c, 0, 1) || FourFrom(b, p, r, c, 1, 0) || FourFrom(b, p, r, c, 1, 1) || FourFrom(b, p, r, c, 1, -1)
  }

  predicate SingleDigits(line: seq<int>) {
    forall k :: 0 <= k < |line| ==> 0 <= line[k] <= 9
  }

  /** On a line of single-digit cells no longer than a row, the pattern for
      a run of 4 occurs exactly where four consecutive cells hold `p`. */
  lemma LineFour(line: seq<int>, p: int)
    requires |line| <= Cols && SingleDigits(line)
    ensures LineMatches(line, RunPattern(4, p)) <==> HasRunOfFour(line, p)
  {
    var s := IntToString(p);
    RepeatFour(s);
    assert RunPattern(4, p) == s + s + s + s;
    if 0 <= p <= 9 {
      LineFourDigit(line, p);
    } else {
      assert |RunPattern(4, p)| >= 8;
      ToStrDigits(line);
      assert !HasRunOfFour(line, p) by {
        forall i | 0 <= i < |line| ensures line[i] != p { }
      }
    }
  }

  /** An occurrence of the digit pattern is a run of four cells. */
  lemma MatchIsRun(line: seq<int>, p: int, i: int)
    requires SingleDigits(line) && 0 <= p <= 9
    requires |ToStr(line)| == |line| && forall k :: 0 <= k < |line| ==> ToStr(line)[k] == DigitChar(line[k])
    requires OccursAt(ToStr(line), [DigitChar(p), DigitChar(p), DigitChar(p), DigitChar(p)], i)
    ensures FourAt(line, p, i)
  {
    var hay := ToStr(line);
    var w := hay[i..i + 4];
    assert hay[i] == w[0] && hay[i + 1] == w[1] && hay[i + 2] == w[2] && hay[i + 3] == w[3];
  }

  /** A run of four cells is an occurrence of the digit pattern. */
  lemma RunIsMatch(line: seq<int>, p: int, i: int)
    requires SingleDigits(line) && 0 <= p <= 9 && FourAt(line, p, i)
    requires |ToStr(line)| == |line| && forall k :: 0 <= k < |line| ==> ToStr(line)[k] == DigitChar(line[k])
    ensures OccursAt(ToStr(line), [DigitChar(p), DigitChar(p), DigitChar(p), DigitChar(p)], i)
  {
    var d := DigitChar(p);
    assert ToStr(line)[i..i + 4] == [d, d, d, d];
  }

  lemma LineFourDigit(line: seq<int>, p: int)
    requires SingleDigits(line) && 0 <= p <= 9
    ensures LineMatches(line, RunPattern(4, p)) <==> HasRunOfFour(line, p)
  {
    ToStrDigits(line);
    var hay := ToStr(line);
    var d := DigitChar(p);
    var pattern := [d, d, d, d];
    RepeatFour([d]);
    assert RunPattern(4, p) == pattern;
    if Contains(hay, pattern) {
      var i :| 0 <= i <= |hay| - |pattern| && OccursAt(hay, pattern, i);
      MatchIsRun(line, p, i);
    }
    if HasRunOfFour(line, p) {
      var i :| FourAt(line, p, i);
      RunIsMatch(line, p, i);
    }
  }

  /** `check_horizontal` with the pattern for 4, read on cells. */
  lemma LinesFour(lines: seq<seq<int>>, p: int)
    requires forall r :: 0 <= r < |lines| ==> |lines[r]| <= Cols && SingleDigits(lines[r])
    ensures CheckHorizontal(lines, RunPattern(4, p)) <==> exists r :: 0 <= r < |lines| && HasRunOfFour(lines[r], p)
  {
    forall r | 0 <= r < |lines|
      ensures LineMatches(lines[r], RunPattern(4, p)) <==> HasRunOfFour(lines[r], p)
    {
      LineFour(lines[r], p);
    }
  }

  lemma RowsFour(b: Grid, p: int)
    requires IsGrid(b)
    ensures (exists r :: 0 <= r < |b| && HasRunOfFour(b[r], p)) <==> exists r, c :: FourFrom(b, p, r, c, 0, 1)
  {
    if exists r :: 0 <= r < |b| && HasRunOfFour(b[r], p) {
      var r :| 0 <= r < |b| && HasRunOfFour(b[r], p);
      var i :| FourAt(b[r], p, i);
      assert FourFrom(b, p, r, i, 0, 1);
    }
    if exists r, c :: FourFrom(b, p, r, c, 0, 1) {
      var r, c :| FourFrom(b, p, r, c, 0, 1);
      assert FourAt(b[r], p, c);
    }
  }

  /** Four in a row down column c is four cells in direction (1, 0). */
  lemma ColumnRunIsFour(b: Grid, p: int, c: int, i: int)
    requires IsGrid(b) && 0 <= c < Cols && FourAt(Column(b, c), p, i)
    ensures FourFrom(b, p, i, c, 1, 0)
  {
    ColumnCells(b, c);
  }

  /** Four cells in direction (1, 0) are four in a row down their column. */
  lemma FourIsColumnRun(b: Grid, p: int, r: int, c: int)
    requires IsGrid(b) && FourFrom(b, p, r, c, 1, 0)
    ensures FourAt(Column(b, c), p, r)
  {
    ColumnCells(b, c);
  }

  lemma ColumnsFour(b: Grid, p: int)
    requires IsGrid(b)
    ensures (exists c :: 0 <= c < Cols && HasRunOfFour(Transpose(b)[c], p)) <==> exists r, c :: FourFrom(b, p, r, c, 1, 0)
  {
    TransposeRows(b);
    if exists c :: 0 <= c < Cols && HasRunOfFour(Transpose(b)[c], p) {
      var c :| 0 <= c < Cols && HasRunOfFour(Transpose(b)[c], p);
      var i :| FourAt(Column(b, c), p, i);
      ColumnRunIsFour(b, p, c, i);
    }
    if exists r, c :: FourFrom(b, p, r, c, 1, 0) {
      var r, c :| FourFrom(b, p, r, c, 1, 0);
      FourIsColumnRun(b, p, r, c);
      assert HasRunOfFour(Transpose(b)[c], p);
    }
  }

  /** Some diagonal at offset -3..3 has a run of four. */
  ghost predicate DiagonalFour(ob: Grid, p: int)
    requires IsGrid(ob)
  {
    exists k :: -3 <= k <= 3 && HasRunOfFour(Diagonal(ob, k), p)
  }

  /** The offsets -3..3 cover every down-right diagonal long enough for four. */
  lemma DiagonalsFour(b: Grid, p: int)
    requires IsGrid(b)
    ensures DiagonalFour(b, p) <==> exists r, c :: FourFrom(b, p, r, c, 1, 1)
  {
    if DiagonalFour(b, p) {
      var k :| -3 <= k <= 3 && HasRunOfFour(Diagonal(b, k), p);
      var i :| FourAt(Diagonal(b, k), p, i);
      if k >= 0 {
        DiagonalToCells(b, p, k, i);
      } else {
        DiagonalToCellsBelow(b, p, k, i);
      }
    }
    if exists r, c :: FourFrom(b, p, r, c, 1, 1) {
      var r, c :| FourFrom(b, p, r, c, 1, 1);
      CellsToDiagonal(b, p, r, c);
    }
  }

  lemma DiagonalToCells(b: Grid, p: int, k: int, i: int)
    requires IsGrid(b) && 0 <= k && FourAt(Diagonal(b, k), p, i)
    ensures FourFrom(b, p, i, i + k, 1, 1)
  {
    var d := Diagonal(b, k);
    DiagonalCells(b, k);
    assert d[i] == b[i][i + k] && d[i + 1] == b[i + 1][i + 1 + k];
    assert d[i + 2] == b[i + 2][i + 2 + k] && d[i + 3] == b[i + 3][i + 3 + k];
  }

  lemma DiagonalToCellsBelow(b: Grid, p: int, k: int, i: int)
    requires IsGrid(b) && k < 0 && FourAt(Diagonal(b, k), p, i)
    ensures FourFrom(b, p, i - k, i, 1, 1)
  {
    var d := Diagonal(b, k);
    DiagonalCells(b, k);
    assert d[i] == b[i - k][i] && d[i + 1] == b[i + 1 - k][i + 1];
    assert d[i + 2] == b[i + 2 - k][i + 2] && d[i + 3] == b[i + 3 - k][i + 3];
  }

  lemma CellsToDiagonal(b: Grid, p: int, r: int, c: int)
    requires IsGrid(b) && FourFrom(b, p, r, c, 1, 1)
    ensures -3 <= c - r <= 3 && HasRunOfFour(Diagonal(b, c - r), p)
  {
    var k := c - r;
    var d := Diagonal(b, k);
    DiagonalCells(b, k);
    if k >= 0 {
      assert |d| >= r + 4;
      assert d[r] == b[r][c] && d[r + 1] == b[r + 1][c + 1] && d[r + 2] == b[r + 2][c + 2] && d[r + 3] == b[r + 3][c + 3];
      assert FourAt(d, p, r);
    } else {
      assert |d| >= c + 4;
      assert d[c] == b[r][c] && d[c + 1] == b[r + 1][c + 1] && d[c + 2] == b[r + 2][c + 2] && d[c + 3] == b[r + 3][c + 3];
      assert FourAt(d, p, c);
    }
  }

  /** The mirror turns down-left diagonals into down-right ones. */
  lemma MirrorFour(b: Grid, p: int)
    requires IsGrid(b)
    ensures (exists r, c :: FourFrom(Mirror(b), p, r, c, 1, 1)) <==> exists r, c :: FourFrom(b, p, r, c, 1, -1)
  {
    var m := Mirror(b);
    MirrorCells(b);
    if exists r, c :: FourFrom(m, p, r, c, 1, 1) {
      var r, c :| FourFrom(m, p, r, c, 1, 1);
      assert FourFrom(b, p, r, Cols - 1 - c, 1, -1);
    }
    if exists r, c :: FourFrom(b, p, r, c, 1, -1) {
      var r, c :| FourFrom(b, p, r, c, 1, -1);
      assert FourFrom(m, p, r, Cols - 1 - c, 1, 1);
    }
  }

  /** `check_diagonal`'s seven offsets are exactly -3..3. */
  lemma DiagonalsMatchFour(ob: Grid, p: int)
    requires IsBoard(ob)
    ensures DiagonalsMatch(ob, RunPattern(4, p)) <==> DiagonalFour(ob, p)
  {
    var pattern := RunPattern(4, p);
    forall k | -3 <= k <= 3
      ensures LineMatches(Diagonal(ob, k), pattern) <==> HasRunOfFour(Diagonal(ob, k), p)
    {
      LineFour(Diagonal(ob, k), p);
    }
    if DiagonalFour(ob, p) {
      var k :| -3 <= k <= 3 && HasRunOfFour(Diagonal(ob, k), p);
      if k != 0 {
        var i := if k > 0 then k else -k;
        assert OffsetPairMatches(ob, i, pattern);
      }
    }
    if DiagonalsMatch(ob, pattern) && !LineMatches(Diagonal(ob, 0), pattern) {
      var i :| 1 <= i < Cols - 3 && OffsetPairMatches(ob, i, pattern);
      if LineMatches(Diagonal(ob, i), pattern) {
        assert HasRunOfFour(Diagonal(ob, i), p);
      } else {
        assert HasRunOfFour(Diagonal(ob, -i), p);
      }
    }
  }

  /** `check_horizontal` finds the pattern for 4 exactly on a row of four. */
  lemma HorizontalFour(b: Grid, p: int)
    requires IsBoard(b)
    ensures CheckHorizontal(b, RunPattern(4, p)) <==> exists r, c :: FourFrom(b, p, r, c, 0, 1)
  {
    LinesFour(b, p);
    RowsFour(b, p);
  }

  /** `check_vertical` finds the pattern for 4 exactly on a column of four. */
  lemma VerticalFour(b: Grid, p: int)
    requires IsBoard(b)
    ensures CheckVertical(b, RunPattern(4, p)) <==> exists r, c :: FourFrom(b, p, r, c, 1, 0)
  {
    var t := Transpose(b);
    TransposeRows(b);
    forall c | 0 <= c < Cols
      ensures |t[c]| <= Cols && SingleDigits(t[c])
    {
      ColumnCells(b, c);
    }
    LinesFour(t, p);
    ColumnsFour(b, p);
  }

  /** `check_diagonal` finds the pattern for 4 exactly on a diagonal of four,
      in either direction. */
  lemma DiagonalBothFour(b: Grid, p: int)
    requires IsBoard(b)
    ensures CheckDiagonal(b, RunPattern(4, p))
        <==> (exists r, c :: FourFrom(b, p, r, c, 1, 1)) || (exists r, c :: FourFrom(b, p, r, c, 1, -1))
  {
    var m := Mirror(b);
    MirrorCells(b);
    assert IsBoard(m);
    DiagonalsMatchFour(b, p);
    DiagonalsMatchFour(m, p);
    DiagonalsFour(b, p);
    DiagonalsFour(m, p);
    MirrorFour(b, p);
  }

  /** Four in a line is four in one of the four directions. */
  lemma HasFourDirections(b: Grid, p: int)
    requires IsGrid(b)
    ensures HasFour(b, p) <==>
      (exists r, c :: FourFrom(b, p, r, c, 0, 1)) || (exists r, c :: FourFrom(b, p, r, c, 1, 0))
      || (exists r, c :: FourFrom(b, p, r, c, 1, 1)) || (exists r, c :: FourFrom(b, p, r, c, 1, -1))
  {
    if HasFour(b, p) {
      var r, c :| FourFrom(b, p, r, c, 0, 1) || FourFrom(b, p, r, c, 1, 0) || FourFrom(b, p, r, c, 1, 1) || FourFrom(b, p, r, c, 1, -1);
    }
  }

  /** The detector's answer for a run of 4 is the game's win condition:
      true exactly when `p` has four in a row, a column or a diagonal. */
  lemma CheckBoardFour(b: Grid, p: int)
    requires IsBoard(b)
    ensures CheckBoard(b, 4, p) <==> HasFour(b, p)
  {
    HorizontalFour(b, p);
    VerticalFour(b, p);
    DiagonalBothFour(b, p);
    HasFourDirections(b, p);
  }
}
