/** Failure-compatible wrappers: `Option` stands for a pandas/NumPy missing value (NaN),
    `Result` for a computation that may raise one of the Python exceptions in `Fault`. */
module Wrappers {

  datatype Option<+T> = None | Some(value: T)

  /** The exceptions the modelled code can raise, by Python class. */
  datatype Fault =
    | KeyError(key: string)
    | ValueError(text: string)
    | IndexError(what: string)
    | TypeError(what: string)
    | AttributeError(column: string)
    | ZeroDivisionError
    | InvalidPollutant(name: string)

  datatype Result<+T> = Ok(value: T) | Err(fault: Fault) {

    predicate IsFailure() {
      Err?
    }

    function PropagateFailure<U>(): Result<U>
      requires Err?
    {
      Err(fault)
    }

    function Extract(): T
      requires Ok?
    {
      value
    }
  }
}
