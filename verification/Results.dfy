/** Results of the C++ operations that can throw. */
module Results {

  datatype Option<+T> = None | Some(value: T)

  // std::invalid_argument and std::out_of_range.
  datatype Error = InvalidArgument | OutOfRange

  datatype Result<+T> = Ok(value: T) | Err(error: Error) {

    predicate IsFailure() {
      Err?
    }

    function PropagateFailure<U>(): Result<U>
      requires Err?
    {
      Err(error)
    }

    function Extract(): T
      requires Ok?
    {
      value
    }
  }
}
