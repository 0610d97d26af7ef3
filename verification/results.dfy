/** Failure-compatible result type used for every operation that can panic in the
    original program (an `unwrap()` on a missing value, a `todo!()` arm, an
    out-of-bounds index): the panic becomes an `Err` carrying its reason. */
module Results {

  datatype Result<+T, +E> = Ok(value: T) | Err(error: E) {

    predicate IsFailure() {
      Err?
    }

    function PropagateFailure<U>(): Result<U, E>
      requires Err?
    {
      Err(error)
    }

    function Extract(): T
      requires Ok?
    {
      value
    }
  }

  datatype Option<+T> = None | Some(value: T)
}
