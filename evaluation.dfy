/** `AIPlayer.designateOpponent` and `AIPlayer.evaluation_function`
    (Player.py:19-23, 205-240). */
module Evaluation {
  import opened Board
  import opened Runs

  const WinBonus: int := 200000
  const ThreeBonus: int := 10000
  const TwoBonus: int := 2000

  /** `designateOpponent`: player 1 plays against 2, every other number against 1. */
  function Opponent(playerNumber: int): (o: int)
    ensures o == 1 || o == 2
    ensures o == 2 <==> playerNumber == 1
  {
    if playerNumber == 1 then 2 else 1
  }

  /** For the two real players the opponent relation is a swap. */
  lemma OpponentSwaps(p: int)
    requires p == 1 || p == 2
    ensures Opponent(p) != p && Opponent(Opponent(p)) == p
  {
  }

  function Bonus(holds: bool, amount: int): int {
    if holds then amount else 0
  }

  /** The value `evaluation_function` computes for `playerNumber`: each of
      the six run checks adds or subtracts its own amount. */
  function Score(b: Grid, playerNumber: int): int
    requires IsGrid(b)
  {
    var opponent := Opponent(playerNumber);
    Bonus(CheckBoard(b, 4, playerNumber), WinBonus) - Bonus(CheckBoard(b, 4, opponent), WinBonus)
    + Bonus(CheckBoard(b, 3, playerNumber), ThreeBonus) - Bonus(CheckBoard(b, 3, opponent), ThreeBonus)
    + Bonus(CheckBoard(b, 2, playerNumber), TwoBonus) - Bonus(CheckBoard(b, 2, opponent), TwoBonus)
  }

  /** Because runs of 2 and 3 are never detected, only the two win terms
      survive: the score is the player's win minus the opponent's win. */
  lemma ScoreIsWinDifference(b: Grid, playerNumber: int)
    requires IsGrid(b)
    ensures Score(b, playerNumber)
            == Bonus(CheckBoard(b, 4, playerNumber), WinBonus) - Bonus(CheckBoard(b, 4, Opponent(playerNumber)), WinBonus)
    ensures Score(b, playerNumber) in {-WinBonus, 0, WinBonus}
  {
    var opponent := Opponent(playerNumber);
    ShortRunsNeverMatch(b, 3, playerNumber);
    ShortRunsNeverMatch(b, 3, opponent);
    ShortRunsNeverMatch(b, 2, playerNumber);
    ShortRunsNeverMatch(b, 2, opponent);
  }

  /** On a board of 0/1/2 cells the score is read off the connect-four
      positions: +200000 for the player's four, -200000 for the opponent's. */
  lemma ScoreOnBoard(b: Grid, playerNumber: int)
    requires IsBoard(b)
    ensures Score(b, playerNumber)
            == Bonus(HasFour(b, playerNumber), WinBonus) - Bonus(HasFour(b, Opponent(playerNumber)), WinBonus)
  {
    ScoreIsWinDifference(b, playerNumber);
    CheckBoardFour(b, playerNumber);
    CheckBoardFour(b, Opponent(playerNumber));
  }

  /** Player 1's evaluation of a board is the negation of player 2's. */
  lemma ScoreAntisymmetric(b: Grid)
    requires IsGrid(b)
    ensures Score(b, 1) == -Score(b, 2)
  {
    ScoreIsWinDifference(b, 1);
    ScoreIsWinDifference(b, 2);
  }

  /** The board with the two players' pieces exchanged. */
  function SwapMarks(b: Grid): (s: Grid)
    requires IsBoard(b)
    ensures IsBoard(s)
    ensures forall r, c :: 0 <= r < Rows && 0 <= c < Cols ==> s[r][c] == if b[r][c] == 0 then 0 else 3 - b[r][c]
  {
    seq(Rows, r requires 0 <= r < Rows =>
      seq(Cols, c requires 0 <= c < Cols => if b[r][c] == 0 then 0 else 3 - b[r][c]))
  }

  /** After the exchange `p` owns exactly the cells the other player owned. */
  lemma SwapOwns(b: Grid, p: int)
    requires IsBoard(b) && (p == 1 || p == 2)
    ensures forall r, c :: Owns(SwapMarks(b), p, r, c) <==> Owns(b, 3 - p, r, c)
  {
    var s := SwapMarks(b);
    forall r, c
      ensures Owns(s, p, r, c) <==> Owns(b, 3 - p, r, c)
    {
    }
  }

  /** Four in direction (dr, dc) for `p` after the exchange is four for the
      other player `q` before it. */
  lemma SwapFourFrom(b: Grid, p: int, q: int, dr: int, dc: int)
    requires IsBoard(b) && (p == 1 || p == 2) && q == 3 - p
    ensures (exists r, c :: FourFrom(SwapMarks(b), p, r, c, dr, dc)) <==> exists r, c :: FourFrom(b, q, r, c, dr, dc)
  {
    var s := SwapMarks(b);
    SwapOwns(b, p);
    if exists r, c :: FourFrom(s, p, r, c, dr, dc) {
      var r, c :| FourFrom(s, p, r, c, dr, dc);
      assert FourFrom(b, q, r, c, dr, dc);
    }
    if exists r, c :: FourFrom(b, q, r, c, dr, dc) {
      var r, c :| FourFrom(b, q, r, c, dr, dc);
      assert FourFrom(s, p, r, c, dr, dc);
    }
  }

  lemma SwapFour(b: Grid, p: int)
    requires IsBoard(b) && (p == 1 || p == 2)
    ensures HasFour(SwapMarks(b), p) <==> HasFour(b, 3 - p)
  {
    var q := 3 - p;
    HasFourDirections(SwapMarks(b), p);
    HasFourDirections(b, q);
    SwapFourFrom(b, p, q, 0, 1);
    SwapFourFrom(b, p, q, 1, 0);
    SwapFourFrom(b, p, q, 1, 1);
    SwapFourFrom(b, p, q, 1, -1);
  }

  /** Exchanging the pieces negates the evaluation. */
  lemma ScoreSwapMarks(b: Grid, playerNumber: int)
    requires IsBoard(b) && (playerNumber == 1 || playerNumber == 2)
    ensures Score(SwapMarks(b), playerNumber) == -Score(b, playerNumber)
  {
    var opponent := Opponent(playerNumber);
    assert opponent == 3 - playerNumber;
    var s := SwapMarks(b);
    ScoreOnBoard(b, playerNumber);
    ScoreOnBoard(s, playerNumber);
    SwapFour(b, playerNumber);
    SwapFour(b, opponent);
    assert HasFour(s, playerNumber) == HasFour(b, opponent);
    assert HasFour(s, opponent) == HasFour(b, playerNumber);
  }

  /** `evaluation_function` (Player.py:223-240), accumulating `value` one
      check at a time. */
  method EvaluationFunction(board: array2<int>, playerNumber: int) returns (value: int)
    requires board.Length0 == Rows && board.Length1 == Cols
    ensures value == Score(GridOf(board), playerNumber)
    ensures value in {-WinBonus, 0, WinBonus}
  {
    var b := GridOf(board);
    var opponent := Opponent(playerNumber);
    var player := playerNumber;
    value := 0;
    if CheckBoard(b, 4, player) {
      value := value + WinBonus;
    }
    if CheckBoard(b, 4, opponent) {
      value := value - WinBonus;
    }
    if CheckBoard(b, 3, player) {
      value := value + ThreeBonus;
    }
    if CheckBoard(b, 3, opponent) {
      value := value - ThreeBonus;
    }
    if CheckBoard(b, 2, player) {
      value := value + TwoBonus;
    }
    if CheckBoard(b, 2, opponent) {
      value := value - TwoBonus;
    }
    ScoreIsWinDifference(b, playerNumber);
  }
}
