/** The exceptions the move-selection code can raise, as values. */
module Results {

  datatype Error =
    | EmptySequence   // `max()` applied to an empty list of root values (ValueError)
    | UnboundColumn   // the root's scan found no matching entry (UnboundLocalError)
    | ZeroDivision    // `v / lengthMoves` with no legal reply (ZeroDivisionError)

  datatype Result<+T> = Ok(value: T) | Err(error: Error)

  /** The outcome of a step that produces no value: go on, or stop with an error. */
  datatype Outcome = Pass | Fail(error: Error)
}
