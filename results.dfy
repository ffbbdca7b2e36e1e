/** Option and Result values for the model's partial operations. */
module Results {

  datatype Option<+T> = None | Some(value: T)

  /** Ok carries the value; Err carries what the source would raise. */
  datatype Result<+T, +E> = Ok(value: T) | Err(error: E) {

    predicate IsFailure() {
      Err?
    }

    function PropagateFailure<U>(): Result<U, E>
      requires Err?
    {
      Err(error)
    }

    function Extract(): T
      requires Ok?
    {
      value
    }
  }
}
