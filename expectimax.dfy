/** `AIPlayer.get_expectimax_move` (Player.py:156-201): the player maximises,
    the random opponent is a chance node whose value is the plain mean of
    its replies. As for alpha-beta, the node values are functions on the
    game tree of `Search`; they return a `Result` because a chance node with
    no reply divides by zero (Python raises `ZeroDivisionError`), and that
    error propagates up through every caller. Values are reals: the source
    computes them in floating point. */
module Expectimax {
  import opened Board
  import opened Legal
  import opened Runs
  import opened Evaluation
  import opened Results
  import opened Selection
  import opened Search

  /** `v += val` */
  function Add(v: real, x: real): real {
    v + x
  }

  /** The real counterpart of `AlphaBeta.Max`: expectimax values are floats. */
  function RMax(x: real, y: real): (m: real)
    ensures m >= x && m >= y && (m == x || m == y)
  {
    if x >= y then x else y
  }

  /** `max_value` (Player.py:174-184): a leaf's value, or the loop over the
      player's replies from the sentinel. */
  function MaxValue(t: Tree): (r: Result<real>)
    ensures r.Err? ==> r.error == ZeroDivision
    ensures t.Node? && r.Ok? ==> r.value >= -Infinity as real
    decreases t, 1
  {
    match t
    case Leaf(x) => Ok(x as real)
    case Node(_) => MaxLoop(t, 0, -Infinity as real)
  }

  /** The loop of `max_value` from reply `i` on, `v` being the running maximum. */
  function MaxLoop(t: Tree, i: int, v: real): (r: Result<real>)
    requires t.Node? && 0 <= i <= |t.children|
    ensures r.Err? ==> r.error == ZeroDivision
    ensures r.Ok? ==> r.value >= v
    decreases t, 0, |t.children| - i
  {
    if i == |t.children| then Ok(v)
    else
      match ExpectedValue(t.children[i])
      case Err(e) => Err(e)
      case Ok(x) => MaxLoop(t, i + 1, RMax(v, x))
  }

  /** `expected_value` (Player.py:186-197): a leaf's value, or the sum of the
      replies' values divided by their number. */
  function ExpectedValue(t: Tree): (r: Result<real>)
    ensures r.Err? ==> r.error == ZeroDivision
    decreases t, 1
  {
    match t
    case Leaf(x) => Ok(x as real)
    case Node(children) =>
      match SumLoop(t, 0, 0.0)
      case Err(e) => Err(e)
      case Ok(v) => if |children| == 0 then Err(ZeroDivision) else Ok(v / |children| as real)
  }

  /** The loop of `expected_value` from reply `i` on, `v` being the running sum. */
  function SumLoop(t: Tree, i: int, v: real): (r: Result<real>)
    requires t.Node? && 0 <= i <= |t.children|
    ensures r.Err? ==> r.error == ZeroDivision
    decreases t, 0, |t.children| - i
  {
    if i == |t.children| then Ok(v)
    else
      match MaxValue(t.children[i])
      case Err(e) => Err(e)
      case Ok(x) => SumLoop(t, i + 1, Add(v, x))
  }

  /** One turn of `expected_value`'s loop on the tree. */
  lemma SumLoopStep(t: Tree, i: int, v: real)
    requires t.Node? && 0 <= i < |t.children|
    ensures SumLoop(t, i, v)
         == match MaxValue(t.children[i])
            case Err(e) => Err(e)
            case Ok(y) => SumLoop(t, i + 1, Add(v, y))
  {
  }

  /** `max_value(board, depth, ...)`: the value of the player's node on
      board `b`. */
  function MaxNode(b: Grid, depth: int, player: int, opponent: int): Result<real>
    requires IsGrid(b)
  {
    MaxValue(PlayerTree(b, depth, player, opponent))
  }

  /** `expected_value(board, depth, ...)`: the value of the opponent's
      chance node on board `b`. */
  function ExpectedNode(b: Grid, depth: int, player: int, opponent: int): Result<real>
    requires IsGrid(b)
  {
    ExpectedValue(OpponentTree(b, depth, player, opponent))
  }

  /** `max_value`'s loop from reply `i` on, on board `b`. */
  function MaxRepliesFrom(b: Grid, i: int, v: real, depth: int, player: int, opponent: int): Result<real>
    requires IsGrid(b) && !IsLeaf(b, depth, player, opponent) && 0 <= i <= |Moves(b)|
  {
    MaxLoop(PlayerTree(b, depth, player, opponent), i, v)
  }

  /** `expected_value`'s loop from reply `i` on, on board `b`. */
  function SumRepliesFrom(b: Grid, i: int, v: real, depth: int, player: int, opponent: int): Result<real>
    requires IsGrid(b) && !IsLeaf(b, depth, player, opponent) && 0 <= i <= |Moves(b)|
  {
    SumLoop(OpponentTree(b, depth, player, opponent), i, v)
  }

  /** At a leaf both node values are `evaluation_function(board) * depth`. */
  lemma LeafNodes(b: Grid, depth: int, player: int, opponent: int)
    requires IsGrid(b) && IsLeaf(b, depth, player, opponent)
    ensures MaxNode(b, depth, player, opponent) == Ok((Score(b, player) * depth) as real)
    ensures ExpectedNode(b, depth, player, opponent) == Ok((Score(b, player) * depth) as real)
  {
  }

  /** At an inner node: `max_value` loops from the sentinel, `expected_value`
      divides the loop's sum by the number of replies, and both loops end
      with their running value. */
  lemma InnerNodes(b: Grid, depth: int, player: int, opponent: int, v: real)
    requires IsGrid(b) && !IsLeaf(b, depth, player, opponent)
    ensures MaxNode(b, depth, player, opponent) == MaxRepliesFrom(b, 0, -Infinity as real, depth, player, opponent)
    ensures ExpectedNode(b, depth, player, opponent)
         == match SumRepliesFrom(b, 0, 0.0, depth, player, opponent)
            case Err(e) => Err(e)
            case Ok(s) => if |Moves(b)| == 0 then Err(ZeroDivision) else Ok(s / |Moves(b)| as real)
    ensures MaxRepliesFrom(b, |Moves(b)|, v, depth, player, opponent) == Ok(v)
    ensures SumRepliesFrom(b, |Moves(b)|, v, depth, player, opponent) == Ok(v)
  {
  }

  /** One turn of `max_value`'s loop, with `x` the value of reply `i`. */
  lemma MaxRepliesStep(b: Grid, i: int, v: real, depth: int, player: int, opponent: int, x: Result<real>)
    requires IsGrid(b) && !IsLeaf(b, depth, player, opponent) && 0 <= i < |Moves(b)|
    requires x == ExpectedNode(Place(b, Moves(b)[i], player), depth - 1, player, opponent)
    ensures MaxRepliesFrom(b, i, v, depth, player, opponent)
         == match x
            case Err(e) => Err(e)
            case Ok(y) => MaxRepliesFrom(b, i + 1, RMax(v, y), depth, player, opponent)
  {
    PlayerChild(b, depth, player, opponent, i);
  }

  /** One turn of `expected_value`'s loop, with `x` the value of reply `i`. */
  lemma SumRepliesStep(b: Grid, i: int, v: real, depth: int, player: int, opponent: int, x: Result<real>)
    requires IsGrid(b) && !IsLeaf(b, depth, player, opponent) && 0 <= i < |Moves(b)|
    requires x == MaxNode(Place(b, Moves(b)[i], opponent), depth - 1, player, opponent)
    ensures SumRepliesFrom(b, i, v, depth, player, opponent)
         == match x
            case Err(e) => Err(e)
            case Ok(y) => SumRepliesFrom(b, i + 1, Add(v, y), depth, player, opponent)
  {
    var t := OpponentTree(b, depth, player, opponent);
    OpponentChild(b, depth, player, opponent, i);
    SumLoopStep(t, i, v);
  }

  /** The value of one player's reply: the piece is written into a fresh
      copy of the board, and `expected_value` is searched one ply down. */
  method PlayerReply(board: array2<int>, m: Move, depth: int, player: int, opponent: int) returns (r: Result<real>)
    requires board.Length0 == Rows && board.Length1 == Cols && InBounds(m) && depth > 1
    ensures r == ExpectedNode(Place(GridOf(board), m, player), depth - 1, player, opponent)
    decreases depth, 0
  {
    var mockboard := PlayOnCopy(board, m, player);
    r := SearchExpected(mockboard, depth - 1, player, opponent);
  }

  /** The value of one opponent's reply: the piece is written into a fresh
      copy of the board, and `max_value` is searched one ply down. */
  method OpponentReply(board: array2<int>, m: Move, depth: int, player: int, opponent: int) returns (r: Result<real>)
    requires board.Length0 == Rows && board.Length1 == Cols && InBounds(m) && depth > 1
    ensures r == MaxNode(Place(GridOf(board), m, opponent), depth - 1, player, opponent)
    decreases depth, 0
  {
    var mockboard := PlayOnCopy(board, m, opponent);
    r := SearchMax(mockboard, depth - 1, player, opponent);
  }

  /** `max_value` (Player.py:174-184) on a board: the leaf rule, else the
      running maximum of `expected_value` over the player's replies; an
      error raised below propagates. */
  method SearchMax(board: array2<int>, depth: int, player: int, opponent: int) returns (r: Result<real>)
    requires board.Length0 == Rows && board.Length1 == Cols
    ensures r == MaxNode(GridOf(board), depth, player, opponent)
    decreases depth, 1
  {
    var b := GridOf(board);
    var validMoves := ValidMoves(board);
    if depth <= 1 || CheckBoard(b, 4, player) || CheckBoard(b, 4, opponent) {
      var e := EvaluationFunction(board, player);
      LeafNodes(b, depth, player, opponent);
      return Ok((e * depth) as real);
    }
    InnerNodes(b, depth, player, opponent, 0.0);
    var v := -Infinity as real;
    for i := 0 to |validMoves|
      invariant MaxRepliesFrom(b, i, v, depth, player, opponent) == MaxNode(b, depth, player, opponent)
    {
      var exVal := PlayerReply(board, validMoves[i], depth, player, opponent);
      MaxRepliesStep(b, i, v, depth, player, opponent, exVal);
      if exVal.Err? {
        return exVal;
      }
      v := RMax(v, exVal.value);
    }
    InnerNodes(b, depth, player, opponent, v);
    return Ok(v);
  }

  /** `expected_value` (Player.py:186-197) on a board: the leaf rule, else
      the sum of `max_value` over the opponent's replies divided by their
      number, which raises when there is none. */
  method SearchExpected(board: array2<int>, depth: int, player: int, opponent: int) returns (r: Result<real>)
    requires board.Length0 == Rows && board.Length1 == Cols
    ensures r == ExpectedNode(GridOf(board), depth, player, opponent)
    decreases depth, 1
  {
    var b := GridOf(board);
    var validMoves := ValidMoves(board);
    var lengthMoves := |validMoves|;
    if depth <= 1 || CheckBoard(b, 4, player) || CheckBoard(b, 4, opponent) {
      var e := EvaluationFunction(board, player);
      LeafNodes(b, depth, player, opponent);
      return Ok((e * depth) as real);
    }
    InnerNodes(b, depth, player, opponent, 0.0);
    var v := 0.0;
    for i := 0 to |validMoves|
      invariant SumRepliesFrom(b, i, v, depth, player, opponent) == SumRepliesFrom(b, 0, 0.0, depth, player, opponent)
    {
      var val := OpponentReply(board, validMoves[i], depth, player, opponent);
      SumRepliesStep(b, i, v, depth, player, opponent, val);
      if val.Err? {
        return val;
      }
      v := Add(v, val.value);
    }
    InnerNodes(b, depth, player, opponent, v);
    if lengthMoves == 0 {
      return Err(ZeroDivision);
    }
    return Ok(v / lengthMoves as real);
  }

  // Reference: a node's value from the list of its children's values.

  predicate AllOk(rs: seq<Result<real>>) {
    forall i :: 0 <= i < |rs| ==> rs[i].Ok?
  }

  function Oks(rs: seq<Result<real>>): (xs: seq<real>)
    requires AllOk(rs)
    ensures |xs| == |rs| && forall i :: 0 <= i < |rs| ==> xs[i] == rs[i].value
  {
    seq(|rs|, i requires 0 <= i < |rs| => rs[i].value)
  }

  /** The greatest of `base` and `xs`. */
  function Maximum(base: real, xs: seq<real>): (m: real)
    ensures m >= base && forall i :: 0 <= i < |xs| ==> m >= xs[i]
    ensures m == base || exists i :: 0 <= i < |xs| && m == xs[i]
    decreases |xs|
  {
    if |xs| == 0 then base
    else
      var m := Maximum(RMax(base, xs[0]), xs[1..]);
      assert forall i :: 1 <= i < |xs| ==> xs[i] == xs[1..][i - 1];
      m
  }

  /** `base` plus the elements of `xs`, added from the left. */
  function SumFrom(base: real, xs: seq<real>): real
    decreases |xs|
  {
    if |xs| == 0 then base else SumFrom(base + xs[0], xs[1..])
  }

  /** The values of a chance node's children, in reply order. */
  function ChildMaxValues(t: Tree): (rs: seq<Result<real>>)
    requires t.Node?
    ensures |rs| == |t.children|
  {
    seq(|t.children|, j requires 0 <= j < |t.children| => MaxValue(t.children[j]))
  }

  /** The values of a player's node's children, in reply order. */
  function ChildExpectedValues(t: Tree): (rs: seq<Result<real>>)
    requires t.Node?
    ensures |rs| == |t.children|
  {
    seq(|t.children|, j requires 0 <= j < |t.children| => ExpectedValue(t.children[j]))
  }

  lemma {:induction false} MaxLoopIsMaximum(t: Tree, i: int, v: real)
    requires t.Node? && 0 <= i <= |t.children|
    ensures var rs := ChildExpectedValues(t)[i..];
            MaxLoop(t, i, v) == if AllOk(rs) then Ok(Maximum(v, Oks(rs))) else Err(ZeroDivision)
    decreases |t.children| - i
  {
    var rs := ChildExpectedValues(t)[i..];
    if i < |t.children| {
      assert rs[0] == ExpectedValue(t.children[i]);
      var rest := ChildExpectedValues(t)[i + 1..];
      assert rs[1..] == rest;
      MaxLoopIsMaximum(t, i + 1, if rs[0].Ok? then RMax(v, rs[0].value) else v);
      if AllOk(rs) {
        assert AllOk(rest);
        assert Oks(rs)[1..] == Oks(rest);
      } else if rs[0].Ok? {
        assert !AllOk(rest) by {
          var j :| 0 <= j < |rs| && rs[j].Err?;
          assert rest[j - 1] == rs[j];
        }
      }
    }
  }

  /** A player's node takes the greatest of its replies' expected values
      (floored at the sentinel), and fails exactly when one of them fails. */
  lemma MaxValueIsMaximum(t: Tree)
    requires t.Node?
    ensures var rs := ChildExpectedValues(t);
            MaxValue(t) == if AllOk(rs) then Ok(Maximum(-Infinity as real, Oks(rs))) else Err(ZeroDivision)
  {
    MaxLoopIsMaximum(t, 0, -Infinity as real);
    assert ChildExpectedValues(t)[0..] == ChildExpectedValues(t);
  }

  lemma {:induction false} SumLoopIsSum(t: Tree, i: int, v: real)
    requires t.Node? && 0 <= i <= |t.children|
    ensures var rs := ChildMaxValues(t)[i..];
            SumLoop(t, i, v) == if AllOk(rs) then Ok(SumFrom(v, Oks(rs))) else Err(ZeroDivision)
    decreases |t.children| - i
  {
    var rs := ChildMaxValues(t)[i..];
    if i < |t.children| {
      assert rs[0] == MaxValue(t.children[i]);
      var rest := ChildMaxValues(t)[i + 1..];
      assert rs[1..] == rest;
      SumLoopIsSum(t, i + 1, if rs[0].Ok? then v + rs[0].value else v);
      if AllOk(rs) {
        assert AllOk(rest);
        assert Oks(rs)[1..] == Oks(rest);
      } else if rs[0].Ok? {
        assert !AllOk(rest) by {
          var j :| 0 <= j < |rs| && rs[j].Err?;
          assert rest[j - 1] == rs[j];
        }
      }
    }
  }

  /** A chance node takes the mean of its replies' values; it fails when
      one of them fails or when there is no reply at all. */
  lemma ExpectedValueIsMean(t: Tree)
    requires t.Node?
    ensures var rs := ChildMaxValues(t);
            ExpectedValue(t) == if !AllOk(rs) || |rs| == 0 then Err(ZeroDivision)
                                else Ok(SumFrom(0.0, Oks(rs)) / |rs| as real)
  {
    SumLoopIsSum(t, 0, 0.0);
    assert ChildMaxValues(t)[0..] == ChildMaxValues(t);
  }

  lemma {:induction false} SumFromBounds(base: real, xs: seq<real>, lo: real, hi: real)
    requires forall i :: 0 <= i < |xs| ==> lo <= xs[i] <= hi
    ensures base + |xs| as real * lo <= SumFrom(base, xs) <= base + |xs| as real * hi
    decreases |xs|
  {
    if |xs| > 0 {
      SumFromBounds(base + xs[0], xs[1..], lo, hi);
      var n := |xs| as real;
      assert (n - 1.0) * lo + lo == n * lo && (n - 1.0) * hi + hi == n * hi;
    }
  }

  /** The mean of values between `lo` and `hi` lies between them: a chance
      node is never valued above its best or below its worst reply. */
  lemma MeanWithin(xs: seq<real>, lo: real, hi: real)
    requires |xs| > 0
    requires forall i :: 0 <= i < |xs| ==> lo <= xs[i] <= hi
    ensures lo <= SumFrom(0.0, xs) / |xs| as real <= hi
  {
    SumFromBounds(0.0, xs, lo, hi);
    var n := |xs| as real;
    var s := SumFrom(0.0, xs);
    assert n * lo <= s <= n * hi;
    assert s / n >= lo by {
      assert s / n * n == s;
    }
    assert s / n <= hi by {
      assert s / n * n == s;
    }
  }

  /** A chance node whose replies all have values is valued between its
      worst and its best reply. */
  lemma ChanceNodeWithin(t: Tree, lo: real, hi: real)
    requires t.Node? && |t.children| > 0 && AllOk(ChildMaxValues(t))
    requires forall i :: 0 <= i < |t.children| ==> lo <= ChildMaxValues(t)[i].value <= hi
    ensures ExpectedValue(t).Ok? && lo <= ExpectedValue(t).value <= hi
  {
    var rs := ChildMaxValues(t);
    ExpectedValueIsMean(t);
    MeanWithin(Oks(rs), lo, hi);
  }

  /** A chance node with no legal reply that is not a leaf (a full board with
      no four in a line and at least 2 plies left) fails with a division by
      zero. */
  lemma NoReplyDividesByZero(b: Grid, depth: int, player: int, opponent: int)
    requires IsGrid(b) && IsFull(b) && !IsLeaf(b, depth, player, opponent)
    ensures ExpectedValue(OpponentTree(b, depth, player, opponent)) == Err(ZeroDivision)
  {
    var t := OpponentTree(b, depth, player, opponent);
    assert |t.children| == 0;
  }

  // The root (Player.py:156-172).

  /** What `expected_value` gives for each root branch, in move order; branch
      k is searched on the copy holding moves 0..k. */
  function BranchResults(b: Grid, depth: int, player: int, opponent: int): (rs: seq<Result<real>>)
    requires IsGrid(b)
    ensures |rs| == |Moves(b)|
  {
    var moves := Moves(b);
    seq(|moves|, k requires 0 <= k < |moves| =>
      ExpectedValue(OpponentTree(RootBoard(b, k, player), depth - 1, player, opponent)))
  }

  /** The list the root builds: each entry records the running maximum of
      the branch values so far, not the branch's own value, paired with the
      branch's column. The first failing branch stops the root. */
  function Running(rs: seq<Result<real>>, cols: seq<int>, v: real): (r: Result<seq<Entry>>)
    requires |rs| == |cols|
    ensures r.Ok? ==> |r.value| == |rs|
  {
    if |rs| == 0 then Ok([])
    else
      match rs[0]
      case Err(e) => Err(e)
      case Ok(x) =>
        var v' := RMax(v, x);
        match Running(rs[1..], cols[1..], v')
        case Err(e) => Err(e)
        case Ok(rest) => Ok([(v', cols[0])] + rest)
  }

  /** `values` put in front of a list, errors passing through. */
  function Prepend(values: seq<Entry>, r: Result<seq<Entry>>): Result<seq<Entry>>
  {
    match r
    case Err(e) => Err(e)
    case Ok(rest) => Ok(values + rest)
  }

  lemma PrependNothing(r: Result<seq<Entry>>)
    ensures Prepend([], r) == r
  {
    if r.Ok? {
      assert [] + r.value == r.value;
    }
  }

  /** The running list fails exactly when a branch fails; otherwise entry j
      holds column j and the maximum of `v` and the first j+1 values. */
  lemma {:induction false} RunningSpec(rs: seq<Result<real>>, cols: seq<int>, v: real)
    requires |rs| == |cols|
    ensures Running(rs, cols, v).Ok? <==> AllOk(rs)
    ensures Running(rs, cols, v).Err? ==> exists i :: 0 <= i < |rs| && rs[i].Err? && Running(rs, cols, v).error == rs[i].error
    ensures AllOk(rs) ==> forall j :: 0 <= j < |rs| ==>
      var e := Running(rs, cols, v).value[j];
      e.1 == cols[j] && e.0 >= v && (forall i :: 0 <= i <= j ==> e.0 >= rs[i].value)
      && (e.0 == v || exists i :: 0 <= i <= j && e.0 == rs[i].value)
  {
    if |rs| > 0 {
      var tail := rs[1..];
      assert forall i :: 1 <= i < |rs| ==> rs[i] == tail[i - 1];
      if rs[0].Ok? {
        var v' := RMax(v, rs[0].value);
        RunningSpec(tail, cols[1..], v');
        if AllOk(rs) {
          assert AllOk(tail);
          var es := Running(rs, cols, v).value;
          var rest := Running(tail, cols[1..], v').value;
          assert es == [(v', cols[0])] + rest;
          forall j | 0 <= j < |rs|
            ensures es[j].1 == cols[j] && es[j].0 >= v && (forall i :: 0 <= i <= j ==> es[j].0 >= rs[i].value)
              && (es[j].0 == v || exists i :: 0 <= i <= j && es[j].0 == rs[i].value)
          {
            if j > 0 {
              assert es[j] == rest[j - 1];
              if es[j].0 != v' {
                var i :| 0 <= i <= j - 1 && es[j].0 == tail[i].value;
                assert es[j].0 == rs[i + 1].value;
              }
            }
          }
        } else {
          assert !AllOk(tail) by {
            var j :| 0 <= j < |rs| && rs[j].Err?;
            assert tail[j - 1] == rs[j];
          }
          var i :| 0 <= i < |tail| && tail[i].Err? && Running(tail, cols[1..], v').error == tail[i].error;
          assert rs[i + 1] == tail[i];
        }
      }
    }
  }

  /** The selection applied to the running-maximum list of branch results
      `rs` for columns `cols`, or the first branch's failure. */
  function RunningSelect(rs: seq<Result<real>>, cols: seq<int>): Result<int>
    requires |rs| == |cols|
  {
    match Running(rs, cols, -Infinity as real)
    case Err(e) => Err(e)
    case Ok(values) => Select(values)
  }

  /** The column `expectimax` returns at `depth`. */
  function ExpectimaxChoice(b: Grid, depth: int, player: int, opponent: int): Result<int>
    requires IsGrid(b)
  {
    RunningSelect(BranchResults(b, depth, player, opponent), Columns(Moves(b)))
  }

  /** One root iteration: given branch `k`'s result, the rest of the list
      fails with that branch's error, or continues from the new maximum with
      one more entry collected. */
  lemma RunningStep(rs: seq<Result<real>>, cols: seq<int>, k: int, v: real, values: seq<Entry>)
    requires |rs| == |cols| && 0 <= k < |rs|
    ensures rs[k].Err? ==> Prepend(values, Running(rs[k..], cols[k..], v)) == Err(rs[k].error)
    ensures rs[k].Ok? ==>
      Prepend(values, Running(rs[k..], cols[k..], v))
        == Prepend(values + [(RMax(v, rs[k].value), cols[k])], Running(rs[k + 1..], cols[k + 1..], RMax(v, rs[k].value)))
  {
    assert rs[k..][0] == rs[k] && rs[k..][1..] == rs[k + 1..];
    assert cols[k..][0] == cols[k] && cols[k..][1..] == cols[k + 1..];
    if rs[k].Ok? {
      var v' := RMax(v, rs[k].value);
      match Running(rs[k + 1..], cols[k + 1..], v')
      case Err(_) =>
      case Ok(rest) =>
        assert values + ([(v', cols[k])] + rest) == values + [(v', cols[k])] + rest;
    }
  }

  /** Before the first branch nothing is collected; after the last one the
      collected entries are the whole list. */
  lemma RunningEnds(rs: seq<Result<real>>, cols: seq<int>, v: real, values: seq<Entry>)
    requires |rs| == |cols|
    ensures Running(rs, cols, v) == Prepend([], Running(rs[0..], cols[0..], v))
    ensures Prepend(values, Running(rs[|rs|..], cols[|cols|..], v)) == Ok(values)
  {
    assert rs[0..] == rs && cols[0..] == cols;
    PrependNothing(Running(rs, cols, v));
    assert values + [] == values;
  }

  /** The body of the root loop: the player's piece is written into the
      shared copy, the branch's expected value is searched one ply down, and
      the running maximum is recorded with the column. A failing branch stops
      the root. */
  method RootStep(mockboard: array2<int>, m: Move, ghost b: Grid, ghost k: int, depth: int, player: int, opponent: int,
                  values: seq<Entry>, v: real, ghost rs: seq<Result<real>>, ghost cols: seq<int>)
    returns (outcome: Outcome, values': seq<Entry>, v': real)
    modifies mockboard
    requires mockboard.Length0 == Rows && mockboard.Length1 == Cols
    requires IsGrid(b) && 0 <= k < |Moves(b)| && m == Moves(b)[k]
    requires rs == BranchResults(b, depth, player, opponent) && cols == Columns(Moves(b))
    requires GridOf(mockboard) == PlaceAll(b, Moves(b)[..k], player)
    ensures GridOf(mockboard) == PlaceAll(b, Moves(b)[..k + 1], player)
    ensures outcome.Fail? ==> Prepend(values, Running(rs[k..], cols[k..], v)) == Err(outcome.error)
    ensures outcome.Pass? ==>
      Prepend(values, Running(rs[k..], cols[k..], v)) == Prepend(values', Running(rs[k + 1..], cols[k + 1..], v'))
  {
    ghost var before := GridOf(mockboard);
    mockboard[m.row, m.col] := player;
    WriteIsPlace(before, GridOf(mockboard), m, player);
    RootBoardStep(b, k, player, before, GridOf(mockboard));
    var exVal := SearchExpected(mockboard, depth - 1, player, opponent);
    assert exVal == rs[k];
    RunningStep(rs, cols, k, v, values);
    if exVal.Err? {
      return Fail(exVal.error), values, v;
    }
    v' := RMax(v, exVal.value);
    values' := values + [(v', m.col)];
    outcome := Pass;
  }

  /** `expectimax` (Player.py:156-172): one copy of the board receives the
      player's piece at every legal move in turn; each branch's expected
      value raises the running maximum, which is recorded with the column. */
  method ExpectimaxSearch(board: array2<int>, depth: int, player: int, opponent: int) returns (r: Result<int>)
    requires board.Length0 == Rows && board.Length1 == Cols
    ensures r == ExpectimaxChoice(GridOf(board), depth, player, opponent)
  {
    ghost var b := GridOf(board);
    ghost var rs := BranchResults(b, depth, player, opponent);
    ghost var cols := Columns(Moves(b));
    ghost var run := Running(rs, cols, -Infinity as real);
    var values: seq<Entry> := [];
    var v: real := -Infinity as real;
    var mockboard := CopyBoard(board);
    var valid := ValidMoves(mockboard);
    assert valid[..0] == [];
    RunningEnds(rs, cols, v, values);
    for k := 0 to |valid|
      invariant GridOf(mockboard) == PlaceAll(b, valid[..k], player)
      invariant run == Prepend(values, Running(rs[k..], cols[k..], v))
    {
      var outcome;
      outcome, values, v := RootStep(mockboard, valid[k], b, k, depth, player, opponent, values, v, rs, cols);
      if outcome.Fail? {
        return Err(outcome.error);
      }
    }
    RunningEnds(rs, cols, v, values);
    r := SelectColumn(values);
  }

  /** `get_expectimax_move` (Player.py:199-201): depth 4. The result is the
      column `ExpectimaxChoice` names; when it is a column it has space, and
      the empty-list failure happens exactly on a full board. */
  method GetExpectimaxMove(board: array2<int>, playerNumber: int) returns (r: Result<int>)
    requires board.Length0 == Rows && board.Length1 == Cols
    ensures r == ExpectimaxChoice(GridOf(board), 4, playerNumber, Opponent(playerNumber))
    ensures r == Err(EmptySequence) <==> IsFull(GridOf(board))
    ensures r.Err? ==> r.error == EmptySequence || r.error == ZeroDivision
    ensures r.Ok? ==> 0 <= r.value < Cols && HasSpace(GridOf(board), r.value)
  {
    var opponent := Opponent(playerNumber);
    r := ExpectimaxSearch(board, 4, playerNumber, opponent);
    ChoiceIsLegal(GridOf(board), 4, playerNumber, opponent);
  }

  /** Where the root's choice can come from: a legal column, the empty list
      of a full board, or a branch's division by zero. */
  lemma ChoiceIsLegal(b: Grid, depth: int, player: int, opponent: int)
    requires IsGrid(b)
    ensures var r := ExpectimaxChoice(b, depth, player, opponent);
      (r == Err(EmptySequence) <==> IsFull(b))
      && (r.Err? ==> r.error == EmptySequence || r.error == ZeroDivision)
      && (r.Ok? ==> 0 <= r.value < Cols && HasSpace(b, r.value))
  {
    var rs := BranchResults(b, depth, player, opponent);
    var cols := Columns(Moves(b));
    RunningSpec(rs, cols, -Infinity as real);
    var run := Running(rs, cols, -Infinity as real);
    if run.Ok? {
      var values := run.value;
      assert RootEntries(b, values);
      RootChoiceIsLegal(b, values);
    } else {
      var i :| 0 <= i < |rs| && rs[i].Err? && run.error == rs[i].error;
      assert |Moves(b)| > 0;
    }
  }

  /** Both bounds characterise a maximum: a value at least `base` and every
      element, and equal to one of them, is `Maximum(base, xs)`. */
  lemma MaximumUnique(base: real, xs: seq<real>, m: real)
    requires m >= base && forall i :: 0 <= i < |xs| ==> m >= xs[i]
    requires m == base || exists i :: 0 <= i < |xs| && m == xs[i]
    ensures m == Maximum(base, xs)
  {
  }

  /** Entry `j` of a completed running list holds column `j` and the best
      value among the first `j + 1` branches. */
  lemma RunningEntries(rs: seq<Result<real>>, cols: seq<int>)
    requires |rs| == |cols| && AllOk(rs)
    ensures var run := Running(rs, cols, -Infinity as real);
      run.Ok? && |run.value| == |rs| &&
      forall j :: 0 <= j < |rs| ==>
        run.value[j].1 == cols[j] && run.value[j].0 == Maximum(-Infinity as real, Oks(rs)[..j + 1])
  {
    var xs := Oks(rs);
    RunningSpec(rs, cols, -Infinity as real);
    var values := Running(rs, cols, -Infinity as real).value;
    forall j | 0 <= j < |values|
      ensures values[j].0 == Maximum(-Infinity as real, xs[..j + 1])
    {
      MaximumUnique(-Infinity as real, xs[..j + 1], values[j].0);
    }
  }

  /** At branch `j` the best value among branches 0..j equals `best`, or
      column `j`'s number does: the root's scan would stop there. */
  predicate ReachesAt(xs: seq<real>, cols: seq<int>, best: real, j: int)
    requires |xs| == |cols| && 0 <= j < |xs|
  {
    Maximum(-Infinity as real, xs[..j + 1]) == best || cols[j] as real == best
  }

  /** Branch `k` is where the root's scan stops: the first branch at which
      it reaches `best`. */
  predicate StopsAt(xs: seq<real>, cols: seq<int>, best: real, k: int)
    requires |xs| == |cols| && 0 <= k < |xs|
  {
    ReachesAt(xs, cols, best, k) && forall j :: 0 <= j < k ==> !ReachesAt(xs, cols, best, j)
  }


  /** A scan over the running list that stops at entry `k`, matching
      `best` there and nowhere before, stops at branch `k` in the sense of
      `StopsAt`. */
  lemma ScanStops(values: seq<Entry>, xs: seq<real>, cols: seq<int>, best: real, k: int)
    requires |values| == |xs| == |cols| && 0 <= k < |xs|
    requires forall j :: 0 <= j < |values| ==>
      values[j].1 == cols[j] && values[j].0 == Maximum(-Infinity as real, xs[..j + 1])
    requires Matches(values[k], best) && forall j :: 0 <= j < k ==> !Matches(values[j], best)
    ensures StopsAt(xs, cols, best, k)
  {
    assert values[k].0 == Maximum(-Infinity as real, xs[..k + 1]) && values[k].1 == cols[k];
    forall j | 0 <= j < k
      ensures !ReachesAt(xs, cols, best, j)
    {
      assert !Matches(values[j], best);
    }
  }

  /** The scan over a completed running list, with `best` the greatest
      branch value: it stops at the first branch whose running best has
      reached `best`, or whose column number equals it. */
  lemma RunningChoice(rs: seq<Result<real>>, cols: seq<int>)
    requires |rs| == |cols| > 0 && AllOk(rs)
    requires forall j, k :: 0 <= j < k < |cols| ==> cols[j] < cols[k]
    ensures var xs := Oks(rs);
      exists k :: 0 <= k < |xs| && RunningSelect(rs, cols) == Ok(cols[k])
        && StopsAt(xs, cols, Maximum(-Infinity as real, xs), k)
  {
    var xs := Oks(rs);
    RunningEntries(rs, cols);
    var values := Running(rs, cols, -Infinity as real).value;
    var n := |values|;
    assert xs[..n] == xs;
    var best := values[n - 1].0;
    assert best == Maximum(-Infinity as real, xs);
    assert StrictlyAscendingColumns(values);
    SelectAgainstLastValue(values);
    var k :| 0 <= k < n && Select(values) == Ok(values[k].1)
      && Matches(values[k], best) && forall j :: 0 <= j < k ==> !Matches(values[j], best);
    assert RunningSelect(rs, cols) == Ok(cols[k]);
    ScanStops(values, xs, cols, best, k);
  }

  /** What the expectimax root picks when every branch has a value: `max_val`
      is the best branch value, each entry holds the best value among the
      branches up to it, and the scan takes the first column whose running
      best has reached `max_val` — or whose column NUMBER equals it. */
  lemma ChoiceReachesBest(b: Grid, depth: int, player: int, opponent: int)
    requires IsGrid(b) && !IsFull(b) && AllOk(BranchResults(b, depth, player, opponent))
    ensures var xs := Oks(BranchResults(b, depth, player, opponent));
      var cols := Columns(Moves(b));
      exists k :: 0 <= k < |xs| && ExpectimaxChoice(b, depth, player, opponent) == Ok(cols[k])
        && StopsAt(xs, cols, Maximum(-Infinity as real, xs), k)
  {
    var rs := BranchResults(b, depth, player, opponent);
    var cols := Columns(Moves(b));
    assert forall j, k :: 0 <= j < k < |cols| ==> cols[j] < cols[k];
    RunningChoice(rs, cols);
    var xs := Oks(rs);
    var k :| 0 <= k < |xs| && RunningSelect(rs, cols) == Ok(cols[k]) && StopsAt(xs, cols, Maximum(-Infinity as real, xs), k);
    assert ExpectimaxChoice(b, depth, player, opponent) == Ok(cols[k]);
  }

  /** When the best branch value is 0 and column 0 has space, the first
      entry already matches `max_val` by its column NUMBER, so column 0 is
      chosen whatever its own value. */
  lemma ZeroBestPicksColumnZero(b: Grid, depth: int, player: int, opponent: int)
    requires IsGrid(b) && HasSpace(b, 0) && AllOk(BranchResults(b, depth, player, opponent))
    requires Maximum(-Infinity as real, Oks(BranchResults(b, depth, player, opponent))) == 0.0
    ensures ExpectimaxChoice(b, depth, player, opponent) == Ok(0)
  {
    var moves := Moves(b);
    var cols := Columns(moves);
    FirstMoveIsColumnZero(b);
    ChoiceReachesBest(b, depth, player, opponent);
    var xs := Oks(BranchResults(b, depth, player, opponent));
    var k :| 0 <= k < |xs| && ExpectimaxChoice(b, depth, player, opponent) == Ok(cols[k])
      && StopsAt(xs, cols, 0.0, k);
    assert ReachesAt(xs, cols, 0.0, 0);
    assert k == 0;
  }

  /** A concrete case: column 0 scores -1.0 and column 1 scores 0.0, yet
      column 0 is chosen. */
  lemma ColumnNumberBeatsValue()
    ensures RunningSelect([Ok(-1.0), Ok(0.0)], [0, 1]) == Ok(0)
  {
    var rs: seq<Result<real>> := [Ok(-1.0), Ok(0.0)];
    var tail: seq<Result<real>> := [Ok(0.0)];
    var none: seq<Result<real>> := [];
    assert rs[1..] == tail && tail[1..] == none;
    assert [0, 1][1..] == [1] && [1][1..] == [];
    assert Running(none, [], 0.0) == Ok([]);
    assert Running(tail, [1], -1.0) == Ok([(0.0, 1)] + []);
    assert [(0.0, 1)] + [] == [(0.0, 1)];
    assert RMax(-Infinity as real, -1.0) == -1.0 && RMax(-1.0, 0.0) == 0.0;
    assert rs[0] == Ok(-1.0) && [0, 1][0] == 0;
    assert Running(rs[1..], [0, 1][1..], -1.0) == Ok([(0.0, 1)]);
    assert Running(rs, [0, 1], -Infinity as real) == Ok([(-1.0, 0)] + [(0.0, 1)]);
    var values: seq<Entry> := [(-1.0, 0), (0.0, 1)];
    assert [(-1.0, 0)] + [(0.0, 1)] == values;
    assert MaxByColumn(values) == (0.0, 1);
    assert Matches(values[0], 0.0);
    assert Select(values) == Ok(0);
  }

}
