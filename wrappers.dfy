/** Option and Result, and the exceptions the modelled Python code can raise. */
module Wrappers {

  datatype Option<+T> = None | Some(value: T)

  datatype Result<+T, +E> = Success(value: T) | Failure(error: E)

  /** The Python exceptions that the modelled operations raise. */
  datatype Error =
    | ZeroDivisionError   // a float or int division by zero
    | MathDomainError     // math.sqrt of a negative number
    | OutOfFormulaRange   // the vapor-pressure formula evaluated outside 0.66 K .. 5.2 K
    | KeyError            // a result key missing from an experiment's dictionary
    | ValueError          // unpacking a tuple into the wrong number of names
}
