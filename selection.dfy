/** The column choice both search roots make from their list of
    `(value, col)` entries (Player.py:121-126 and 167-172). The target value
    is taken from the entry with the greatest column, not the greatest value,
    and the root then picks the first entry in which the target occurs, as
    either its value or its column number. */
module Selection {
  import opened Results

  /** A root entry `(value, col)`. Python compares an int and a float by
      their numeric values, so both searches' values are held as reals. */
  type Entry = (real, int)

  /** Python's `max(values, key=...)` continued from index `i`: the best entry
      is replaced only by one with a strictly greater column. */
  function MaxByColumnFrom(values: seq<Entry>, i: int, best: Entry): Entry
    requires 0 <= i <= |values|
    decreases |values| - i
  {
    if i == |values| then best
    else MaxByColumnFrom(values, i + 1, if values[i].1 > best.1 then values[i] else best)
  }

  /** `max(values, key=lambda i: i[1])` */
  function MaxByColumn(values: seq<Entry>): Entry
    requires |values| > 0
  {
    MaxByColumnFrom(values, 1, values[0])
  }

  lemma {:induction false} MaxByColumnFromSpec(values: seq<Entry>, i: int, b: int)
    requires 0 <= b < i <= |values|
    requires forall j :: 0 <= j < i ==> values[j].1 <= values[b].1
    requires forall j :: 0 <= j < b ==> values[j].1 < values[b].1
    ensures exists k :: 0 <= k < |values| && MaxByColumnFrom(values, i, values[b]) == values[k]
              && (forall j :: 0 <= j < |values| ==> values[j].1 <= values[k].1)
              && (forall j :: 0 <= j < k ==> values[j].1 < values[k].1)
    decreases |values| - i
  {
    if i < |values| {
      if values[i].1 > values[b].1 {
        MaxByColumnFromSpec(values, i + 1, i);
      } else {
        MaxByColumnFromSpec(values, i + 1, b);
      }
    } else {
      assert MaxByColumnFrom(values, i, values[b]) == values[b];
    }
  }

  /** Python's `max` with a key returns the FIRST entry of greatest column. */
  lemma MaxByColumnIsFirstGreatest(values: seq<Entry>)
    requires |values| > 0
    ensures exists k :: 0 <= k < |values| && MaxByColumn(values) == values[k]
              && (forall j :: 0 <= j < |values| ==> values[j].1 <= values[k].1)
              && (forall j :: 0 <= j < k ==> values[j].1 < values[k].1)
  {
    MaxByColumnFromSpec(values, 1, 0);
  }

  predicate StrictlyAscendingColumns(values: seq<Entry>) {
    forall j, k :: 0 <= j < k < |values| ==> values[j].1 < values[k].1
  }

  /** The root lists are built in increasing column order, so the `max`
      keyed on the column is simply the last entry. */
  lemma MaxByColumnIsLast(values: seq<Entry>)
    requires |values| > 0 && StrictlyAscendingColumns(values)
    ensures MaxByColumn(values) == values[|values| - 1]
  {
    MaxByColumnIsFirstGreatest(values);
  }

  /** `max_val in item` for a `(value, col)` tuple. */
  predicate Matches(e: Entry, target: real) {
    e.0 == target || e.1 as real == target
  }

  /** The `for item in values` scan from index `i`: the column of the first
      matching entry; leaving the loop without a match leaves the result
      variable unbound. */
  function FirstMatch(values: seq<Entry>, target: real, i: int): Result<int>
    requires 0 <= i <= |values|
    decreases |values| - i
  {
    if i == |values| then Err(UnboundColumn)
    else if Matches(values[i], target) then Ok(values[i].1)
    else FirstMatch(values, target, i + 1)
  }

  /** The root's choice: `max()` of an empty list raises, otherwise the scan. */
  function Select(values: seq<Entry>): Result<int> {
    if |values| == 0 then Err(EmptySequence) else FirstMatch(values, MaxByColumn(values).0, 0)
  }

  lemma {:induction false} FirstMatchSpec(values: seq<Entry>, target: real, i: int, w: int)
    requires 0 <= i <= w < |values| && Matches(values[w], target)
    requires forall j :: 0 <= j < i ==> !Matches(values[j], target)
    ensures exists k :: 0 <= k <= w && FirstMatch(values, target, i) == Ok(values[k].1)
              && Matches(values[k], target) && forall j :: 0 <= j < k ==> !Matches(values[j], target)
    decreases |values| - i
  {
    if !Matches(values[i], target) {
      FirstMatchSpec(values, target, i + 1, w);
    }
  }

  /** On a non-empty list the scan always finds an entry (the `max` entry
      matches itself), so the unbound-variable error cannot happen: the
      choice is the column of the first entry whose value or column number
      equals `max_val`. */
  lemma SelectFirstMatch(values: seq<Entry>)
    requires |values| > 0
    ensures exists k :: 0 <= k < |values| && Select(values) == Ok(values[k].1)
              && Matches(values[k], MaxByColumn(values).0)
              && forall j :: 0 <= j < k ==> !Matches(values[j], MaxByColumn(values).0)
  {
    MaxByColumnIsFirstGreatest(values);
    var w :| 0 <= w < |values| && MaxByColumn(values) == values[w];
    FirstMatchSpec(values, MaxByColumn(values).0, 0, w);
  }

  /** For the root lists, where columns increase: the choice is the first
      entry whose value or column number equals the LAST entry's value. */
  lemma SelectAgainstLastValue(values: seq<Entry>)
    requires |values| > 0 && StrictlyAscendingColumns(values)
    ensures var target := values[|values| - 1].0;
            exists k :: 0 <= k < |values| && Select(values) == Ok(values[k].1)
              && Matches(values[k], target) && forall j :: 0 <= j < k ==> !Matches(values[j], target)
  {
    MaxByColumnIsLast(values);
    SelectFirstMatch(values);
  }

  /** An example that the choice need not be the highest-scoring column:
      column 1 valued 3.0 is chosen over column 0 valued 5.0. */
  lemma SelectIsNotArgmax()
    ensures Select([(5.0, 0), (3.0, 1)]) == Ok(1)
  {
    assert MaxByColumn([(5.0, 0), (3.0, 1)]) == (3.0, 1);
  }

  /** Ties break toward the LOWER column: on a list in increasing column
      order, whenever an entry holds `max_val` the choice is that entry's
      column or a lower one. */
  lemma {:induction false} SelectAtOrBeforeMatch(values: seq<Entry>, i: int)
    requires 0 <= i < |values| && StrictlyAscendingColumns(values)
    requires values[i].0 == MaxByColumn(values).0
    ensures Select(values).Ok? && Select(values).value <= values[i].1
  {
    SelectFirstMatch(values);
    var k :| 0 <= k < |values| && Select(values) == Ok(values[k].1)
      && forall j :: 0 <= j < k ==> !Matches(values[j], MaxByColumn(values).0);
    assert Matches(values[i], MaxByColumn(values).0);
    assert k <= i;
  }

  /** An example of the tie rule: two entries of equal value, the lower column wins. */
  lemma SelectTieGoesToLowerColumn()
    ensures Select([(4.0, 2), (4.0, 5)]) == Ok(2)
  {
    assert MaxByColumn([(4.0, 2), (4.0, 5)]) == (4.0, 5);
  }

  /** `max_val in item` also matches a column NUMBER equal to `max_val`:
      column 1 is chosen for its index, though its value is 7. */
  lemma SelectMatchesColumnNumber()
    ensures Select([(0.0, 0), (7.0, 1), (1.0, 2)]) == Ok(1)
  {
    assert MaxByColumn([(0.0, 0), (7.0, 1), (1.0, 2)]) == (1.0, 2);
  }

  /** The root's selection loop (Player.py:121-126, 167-172). */
  method SelectColumn(values: seq<Entry>) returns (r: Result<int>)
    ensures r == Select(values)
  {
    if |values| == 0 {
      return Err(EmptySequence);
    }
    var maxVal := MaxByColumn(values).0;
    for i := 0 to |values|
      invariant FirstMatch(values, maxVal, i) == FirstMatch(values, maxVal, 0)
    {
      if Matches(values[i], maxVal) {
        return Ok(values[i].1);
      }
    }
    return Err(UnboundColumn);
  }
}
