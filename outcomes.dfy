/** Optional values, results and the error kinds the scheduler can raise. */
module Outcomes {

  datatype Option<+T> = None | Some(value: T)

  /** The four error kinds: an out-of-domain value, an inverted range, an expression
      the grammar does not accept, and a schedule with no reachable occurrence. */
  datatype Error = RangeError | InvalidRangeError | ParseError | NextDateNotFound

  datatype Result<+T> = Ok(value: T) | Err(error: Error)
}
