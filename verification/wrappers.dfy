/** Option and Result values used where the pipeline has an absent value or an error path. */
module Wrappers {

  /** An optional value: Python's `Optional[T]`, with `None` for absence. */
  datatype Option<+T> = None | Some(value: T)

  /** The outcome of an operation that can raise: either a value or the error it raises. */
  datatype Result<+R, +E> = Success(value: R) | Failure(error: E)

  /** The exceptions the pipeline raises instead of producing a value. */
  datatype PipelineError =
    | MissingKey(variable: string)  // a required environment variable is unset (`KeyError`)
    | EmptyPool                     // a worker pool was asked for zero processes (`ValueError`)
}
