/** Option and Result values shared by every stage of the pipeline. A `Result`
    stands for a Python call that either returns a value or raises. */
module Results {

  datatype Option<+T> = None | Some(value: T)

  /** The exceptions the modelled code can raise. */
  datatype Error =
    | FloatError(token: string)      // float() raised ValueError on this text
    | MissingColumn(name: string)    // a DataFrame column lookup raised KeyError
    | NoValues(name: string)         // the last value of a column with no value: IndexError
    | NoIndexData                    // int(NaN) raised ValueError: the index column has no value

  datatype Result<+T> = Ok(value: T) | Err(error: Error) {

    predicate IsFailure() {
      Err?
    }

    function PropagateFailure<U>(): Result<U>
      requires Err?
    {
      Err(error)
    }

    function Extract(): T
      requires Ok?
    {
      value
    }
  }
}
