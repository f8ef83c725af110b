/** Failure-compatible result type and the error kinds raised by the
    field and curve operations. Each constructor of Error stands for one
    exception branch of the Python code. */
module Wrappers {

  datatype Option<+T> = None | Some(value: T)

  datatype Error =
    | OutOfRange(num: int, prime: int)  // ValueError: num outside [0, prime)
    | DifferentFields                   // TypeError: operands with different primes
    | DivisionByZero                    // ValueError: division by the zero element
    | ModuloByZero                      // ZeroDivisionError: `exponent % (prime - 1)` with prime == 1
    | MissingCoordinate                 // TypeError: `None ** n` when only one coordinate is None
    | NotOnCurve                        // ValueError: the curve equation does not hold
    | DifferentCurves                   // TypeError: points with different `a` or `b`

  datatype Result<+T> = Ok(value: T) | Err(error: Error) {

    predicate IsFailure() {
      Err?
    }

    function PropagateFailure<U>(): Result<U>
      requires Err?
    {
      Err(error)
    }

    function Extract(): T
      requires Ok?
    {
      value
    }
  }
}
